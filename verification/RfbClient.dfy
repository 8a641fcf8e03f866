/** The client's message loop over the receive buffer and its decoders. */
module RfbClient {
  import opened Bytes
  import opened ReceiveQueue
  import opened Tiles
  import opened RectSteps
  import opened UpdateLoop
  import opened RunFollowing
  import RawAndRre
  import Hextile

  /** An update in progress; once no rectangle is left its end is still owed. */
  ghost predicate UpdateAt(c: Conn, q0: seq<byte>, out: seq<Event>, d: Conn, q: seq<byte>) {
    if d.rects > 0 then Reaches(c, q0, out, d, q) else Reaches(c, q0, out + EndUpdate(d), d, q)
  }

  lemma UpdateAfterRect(c: Conn, q0: seq<byte>, done: seq<Event>, d: Conn, q: seq<byte>, out: seq<Event>, e: Conn, q': seq<byte>)
    requires Reaches(c, q0, done, d, q) && Completes(d, q, out, e, q')
    ensures e.rects > 0
    ensures var f := e.(rects := e.rects - 1, header := None); ConnOk(f) && UpdateAt(c, q0, done + out, f, q')
  {
    ComposeCompletes(c, q0, done, d, q, out, e, q');
    CompletesOk(c, q0, done + out, e, q');
    var f := e.(rects := e.rects - 1, header := None);
    hide ConnOk, Run;
    assert EndUpdate(f) == EndUpdate(e);
    assert done + out + [] == done + out;
  }

  lemma UpdateHeader(c: Conn, q0: seq<byte>, out: seq<Event>, d: Conn, q: seq<byte>)
    requires Reaches(c, q0, out, d, q) && d.rects == 0 && |q| >= 1 && q[0] == 0
    ensures |q| < 4 ==> Halts(c, q0, out, d, q)
    ensures |q| >= 4 ==> UpdateAt(c, q0, out, d.(rects := BigEndian(q[2..4])), q[4..])
  {
    if |q| < 4 {
      ReachWait(c, q0, out, d, q);
    } else {
      ReachStep(c, q0, out, d, q, ConnStep(d, q));
      assert out + [] == out;
    }
  }

  lemma EncodingSign(q: seq<byte>)
    requires |q| >= 12
    ensures var n := BigEndian(q[8..12]);
            SignedEncoding(q[8..12]) == if n < TWO_31 then n else n - TWO_32
  {
  }

  lemma RectHeaderStep(c: Conn, q0: seq<byte>, out: seq<Event>, d: Conn, q: seq<byte>)
    requires Reaches(c, q0, out, d, q) && d.rects > 0 && d.header == None
    ensures |q| < 12 ==> Halts(c, q0, out, d, q)
    ensures |q| >= 12 ==>
              Reaches(c, q0, out, d.(header := Some(HeaderAt(q))), q[12..])
  {
    if |q| < 12 {
      ReachWait(c, q0, out, d, q);
    } else {
      ReachStep(c, q0, out, d, q, ConnStep(d, q));
      assert out + [] == out;
    }
  }

  /** What a pseudo-encoding changes and draws. */
  function PseudoState(c: Conn, h: RectHeader): Conn {
    if h.encoding == PSEUDO_LAST_RECT then c.(rects := 1)
    else if h.encoding == PSEUDO_DESKTOP_SIZE then c.(fbW := h.rect.w, fbH := h.rect.h)
    else c
  }

  function PseudoEvents(c: Conn, h: RectHeader): seq<Event> {
    if h.encoding == PSEUDO_DESKTOP_SIZE then
      [Event.Resize(h.rect.w, h.rect.h)] + (if c.enabledContinuous then [EnableUpdates(h.rect.w, h.rect.h)] else [])
    else []
  }

  predicate IsPseudo(e: int) {
    e == PSEUDO_LAST_RECT || e == PSEUDO_DESKTOP_SIZE || e == PSEUDO_QEMU_KEY || e == PSEUDO_MOUSE_BUTTONS
  }

  predicate IsData(e: int) {
    e == ENCODING_RAW || e == ENCODING_RRE || e == ENCODING_HEXTILE
  }

  lemma PseudoDone(c: Conn, q: seq<byte>, h: RectHeader)
    requires ConnOk(c) && c.header == Some(h) && !IsData(h.encoding)
    ensures IsPseudo(h.encoding) ==> Completes(c, q, PseudoEvents(c, h), PseudoState(c, h), q)
    ensures !IsPseudo(h.encoding) ==> Fails(c, q, [Unmodelled])
  {
    ReachesItself(c, q);
    assert q[0..] == q;
    if IsPseudo(h.encoding) {
      assert [] + PseudoEvents(c, h) == PseudoEvents(c, h);
      ReachFinish(c, q, [], c, q, PseudoState(c, h), 0, PseudoEvents(c, h));
    }
  }

  class Client {
    const sock: ReceiveBuffer
    const display: EventLog
    const raw: RawAndRre.RawDecoder
    const rre: RawAndRre.RreDecoder
    const hextile: Hextile.HextileDecoder
    var live: bool
    var rects: nat
    var header: Option<RectHeader>
    var fbW: nat
    var fbH: nat
    const depth8: bool
    var supportsContinuous: bool
    var enabledContinuous: bool

    ghost function Abs(): Conn
      reads this, raw, rre, hextile
    {
      Conn(live, rects, header, raw.lines, rre.subrects, hextile.State(), fbW, fbH, depth8, supportsContinuous, enabledContinuous)
    }

    ghost predicate Valid()
      reads this, sock, sock.rQ, raw, rre, hextile
    {
      sock.Valid() && hextile.Valid() && hextile.tileBuffer != sock.rQ && ConnOk(Abs())
    }

    constructor (depth8: bool, fbW: nat, fbH: nat)
      ensures Valid() && live && rects == 0 && sock.Queue() == Fifo([], []) && display.events == []
      ensures fresh(sock) && fresh(sock.rQ) && fresh(display) && fresh(raw) && fresh(rre)
      ensures fresh(hextile) && fresh(hextile.tileBuffer)
    {
      sock := new ReceiveBuffer();
      display := new EventLog();
      raw := new RawAndRre.RawDecoder();
      rre := new RawAndRre.RreDecoder();
      hextile := new Hextile.HextileDecoder();
      live, rects, header := true, 0, None;
      this.depth8, this.fbW, this.fbH := depth8, fbW, fbH;
      supportsContinuous, enabledContinuous := false, false;
    }

    /** Decodes or applies the rectangle whose header has been read. */
    method HandleRect() returns (ok: bool, ghost out: seq<Event>)
      requires Valid() && header.Some? && rects > 0
      modifies this, sock`rQi, sock`consumed, sock`unread, display, raw, rre, hextile, hextile.tileBuffer
      ensures sock.Valid() && hextile.Valid() && display.events == old(display.events) + out
      ensures |sock.unread| <= |old(sock.unread)|
      ensures ok ==> Completes(old(Abs()), old(sock.unread), out, Abs(), sock.unread)
      ensures ok ==> live == old(live) && rects <= old(rects)
      ensures !ok ==> Halts(old(Abs()), old(sock.unread), out, Abs(), sock.unread)
      ensures !ok && live ==> Valid()
    {
      hide ConnOk, Completes, Blocks, Fails;
      ghost var c, q := Abs(), sock.unread;
      var h := header.value;
      if h.encoding == ENCODING_RAW {
        ok, out := raw.DecodeRect(h.rect, sock, display, depth8, c);
      } else if h.encoding == ENCODING_RRE {
        ok, out := rre.DecodeRect(h.rect, sock, display, c);
      } else if h.encoding == ENCODING_HEXTILE {
        ok, out := HandleHextile(h.rect);
      } else {
        ok, out := HandlePseudo(h);
      }
      if !ok && live {
        HaltsOk(c, q, out, Abs(), sock.unread);
      }
    }

    /** What the Hextile decoder throws fails the connection. */
    method HandleHextile(r: Rect) returns (ok: bool, ghost out: seq<Event>)
      requires Valid() && header == Some(RectHeader(r, ENCODING_HEXTILE))
      modifies `live, sock`rQi, sock`consumed, sock`unread, display, hextile, hextile.tileBuffer
      ensures sock.Valid() && hextile.Valid() && display.events == old(display.events) + out
      ensures |sock.unread| <= |old(sock.unread)|
      ensures ok ==> live == old(live) && Completes(old(Abs()), old(sock.unread), out, Abs(), sock.unread)
      ensures !ok ==> Halts(old(Abs()), old(sock.unread), out, Abs(), sock.unread)
    {
      hide ConnOk, Completes, Blocks, Fails;
      var status;
      status, out := hextile.DecodeRect(r, sock, display, Abs());
      if status == Hextile.Threw {
        display.Add(Failed);
        live := false;
        return false, out + [Failed];
      }
      return status == Hextile.Complete, out;
    }

    method HandlePseudo(h: RectHeader) returns (ok: bool, ghost out: seq<Event>)
      requires Valid() && header == Some(h) && rects > 0 && !IsData(h.encoding)
      modifies this, display
      ensures display.events == old(display.events) + out
      ensures ok ==> Completes(old(Abs()), sock.unread, out, Abs(), sock.unread)
      ensures ok ==> live == old(live) && rects <= old(rects)
      ensures !ok ==> !live && Fails(old(Abs()), sock.unread, out)
    {
      hide Completes, Fails;
      PseudoDone(Abs(), sock.unread, h);
      out := [];
      if h.encoding == PSEUDO_LAST_RECT {
        rects := 1;
      } else if h.encoding == PSEUDO_DESKTOP_SIZE {
        fbW, fbH := h.rect.w, h.rect.h;
        display.Add(Event.Resize(fbW, fbH));
        out := [Event.Resize(fbW, fbH)];
        if enabledContinuous {
          display.Add(EnableUpdates(fbW, fbH));
          out := out + [EnableUpdates(fbW, fbH)];
        }
        assert out == PseudoEvents(old(Abs()), h);
      } else if h.encoding == PSEUDO_QEMU_KEY || h.encoding == PSEUDO_MOUSE_BUTTONS {
      } else {
        display.Add(Unmodelled);
        live := false;
        return false, [Unmodelled];
      }
      return true, out;
    }

    /** The next rectangle: its header, unless that has been read, and its body. */
    method OneRect(ghost c: Conn, ghost q0: seq<byte>, ghost done: seq<Event>) returns (ok: bool, ghost out: seq<Event>)
      requires Valid() && rects > 0 && UpdateAt(c, q0, done, Abs(), sock.unread)
      modifies this, sock`rQi, sock`consumed, sock`unread, display, raw, rre, hextile, hextile.tileBuffer
      ensures sock.Valid() && hextile.Valid() && display.events == old(display.events) + out
      ensures |sock.unread| <= |old(sock.unread)|
      ensures ok ==> Valid() && live == old(live) && rects < old(rects) && header == None
                     && UpdateAt(c, q0, done + out, Abs(), sock.unread)
      ensures !ok ==> Halts(c, q0, done + out, Abs(), sock.unread)
      ensures !ok && live ==> Valid()
    {
      hide ConnOk, Completes, Halts, Reaches, UpdateAt;
      ok := NextHeader(c, q0, done);
      if !ok {
        assert done + [] == done;
        return false, [];
      }
      ghost var d, q := Abs(), sock.unread;
      ok, out := HandleRect();
      if ok {
        UpdateAfterRect(c, q0, done, d, q, out, Abs(), sock.unread);
        rects := rects - 1;
        header := None;
      } else {
        ComposeHalts(c, q0, done, d, q, out, Abs(), sock.unread);
      }
    }

    method NextHeader(ghost c: Conn, ghost q0: seq<byte>, ghost done: seq<Event>) returns (ok: bool)
      requires Valid() && rects > 0 && UpdateAt(c, q0, done, Abs(), sock.unread)
      modifies `header, sock`rQi, sock`consumed, sock`unread
      ensures Valid() && |sock.unread| <= |old(sock.unread)|
      ensures ok ==> header.Some? && Reaches(c, q0, done, Abs(), sock.unread)
      ensures !ok ==> Halts(c, q0, done, Abs(), sock.unread)
    {
      hide ConnOk, Halts, Reaches, HeaderAt;
      if header == None {
        RectHeaderStep(c, q0, done, Abs(), sock.unread);
        ok := ReadHeader();
        if !ok {
          return false;
        }
        ReachOk(c, q0, done, Abs(), sock.unread);
      }
      return true;
    }

    /** Takes the twelve bytes of a rectangle header. */
    method ReadHeader() returns (ok: bool)
      requires sock.Valid() && header == None
      modifies `header, sock`rQi, sock`consumed, sock`unread
      ensures sock.Valid()
      ensures !ok ==> |sock.unread| < 12 && sock.Queue() == old(sock.Queue()) && header == None
      ensures var q := old(sock.unread);
              ok ==> |q| >= 12 && sock.unread == q[12..] && header == Some(HeaderAt(q))
    {
      hide BigEndian, SignedEncoding;
      ghost var q := sock.unread;
      var wait := sock.Wait(12, 0);
      if wait == Some(true) {
        return false;
      }
      var x, y := Pair(q, 0);
      var w, h := Pair(q, 4);
      var n := Number(4, q, 8);
      EncodingSign(q);
      var encoding := if n < TWO_31 then n else n - TWO_32;
      header := Some(RectHeader(Rect(x, y, w, h), encoding));
      return true;
    }

    method Pair(ghost q: seq<byte>, ghost at: nat) returns (a: nat, b: nat)
      requires sock.Valid() && at + 4 <= |q| && sock.unread == q[at..]
      modifies sock`rQi, sock`consumed, sock`unread
      ensures sock.Valid() && sock.unread == q[at + 4..]
      ensures a == BigEndian(q[at..at + 2]) && b == BigEndian(q[at + 2..at + 4])
    {
      hide BigEndian;
      a := Number(2, q, at);
      b := Number(2, q, at + 2);
    }

    /** The big-endian number of `bytes` bytes at q[at..]. */
    method Number(bytes: nat, ghost q: seq<byte>, ghost at: nat) returns (n: nat)
      requires sock.Valid() && bytes <= 4 && at + bytes <= |q| && sock.unread == q[at..]
      modifies sock`rQi, sock`consumed, sock`unread
      ensures sock.Valid() && sock.unread == q[at + bytes..]
      ensures n == BigEndian(q[at..at + bytes])
    {
      hide BigEndian;
      n := sock.Shift(bytes);
      assert q[at..][..bytes] == q[at..at + bytes] && q[at..][bytes..] == q[at + bytes..];
    }

    /** The rest of the update in progress, as far as the bytes go. */
    method FramebufferUpdate(ghost c: Conn, ghost q0: seq<byte>, ghost done: seq<Event>) returns (ok: bool, ghost out: seq<Event>)
      requires Valid() && UpdateAt(c, q0, done, Abs(), sock.unread) && (rects == 0 ==> header == None)
      modifies this, sock`rQi, sock`consumed, sock`unread, display, raw, rre, hextile, hextile.tileBuffer
      ensures sock.Valid() && hextile.Valid() && display.events == old(display.events) + out
      ensures |sock.unread| <= |old(sock.unread)|
      ensures ok ==> Valid() && rects == 0 && live == old(live)
                     && Reaches(c, q0, done + out + (if enabledContinuous then [] else [UpdateRequest(fbW, fbH)]), Abs(), sock.unread)
      ensures !ok ==> Halts(c, q0, done + out, Abs(), sock.unread)
      ensures !ok && live ==> Valid()
    {
      hide ConnOk, Completes, Halts, UpdateAt, Reaches;
      out := [];
      assert done + out == done;
      while rects > 0
        invariant Valid() && UpdateAt(c, q0, done + out, Abs(), sock.unread) && live == old(live)
        invariant display.events == old(display.events) + out && |sock.unread| <= |old(sock.unread)|
        decreases |sock.unread|, rects
      {
        ghost var o;
        ok, o := OneRect(c, q0, done + out);
        assert done + (out + o) == done + out + o;
        out := out + o;
        if !ok {
          return false, out;
        }
      }
      display.Add(Flip);
      UpdateEnds(c, q0, done, out, Abs(), sock.unread);
      out := out + [Flip];
      return true, out;
    }

    /** The header of an update whose type byte has just been taken. When it is
        not complete the type byte is given back. */
    method UpdateStart(ghost c: Conn, ghost q0: seq<byte>, ghost done: seq<Event>, ghost before: Fifo, ghost q: seq<byte>)
        returns (ok: bool)
      requires Valid() && rects == 0 && header == None && sock.rQi >= 1
      requires q == before.unread && |q| >= 1 && q[0] == 0 && sock.Queue() == before.Take(1) && sock.unread == q[1..]
      requires Reaches(c, q0, done, Abs(), q)
      modifies `rects, sock`rQi, sock`consumed, sock`unread
      ensures sock.Valid() && |sock.unread| <= |q| && header == None
      ensures ok ==> Valid() && UpdateAt(c, q0, done, Abs(), sock.unread) && |sock.unread| < |q|
      ensures !ok ==> Valid() && Halts(c, q0, done, Abs(), sock.unread)
    {
      hide ConnOk, Halts, Reaches, UpdateAt, BigEndian;
      UpdateHeader(c, q0, done, Abs(), q);
      GoBackUndoesTake(before, 1);
      hide Fifo.Take, Fifo.GoBack;
      var wait := sock.Wait(3, 1);
      if wait == Some(true) {
        return false;
      }
      rects := RectCount(q);
      UpdateOk(c, q0, done, Abs(), sock.unread);
      return true;
    }

    method RectCount(ghost q: seq<byte>) returns (n: nat)
      requires sock.Valid() && |q| >= 4 && sock.unread == q[1..]
      modifies sock`rQi, sock`consumed, sock`unread
      ensures sock.Valid() && sock.unread == q[4..] && n == BigEndian(q[2..4])
    {
      hide BigEndian;
      sock.SkipBytes(1);
      n := Number(2, q, 2);
    }

    /** One server message, or the rest of the update in progress. */
    method NormalMessage(ghost c: Conn, ghost q0: seq<byte>, ghost done: seq<Event>) returns (ok: bool, ghost out: seq<Event>)
      requires Valid() && Reaches(c, q0, done, Abs(), sock.unread) && (rects > 0 || |sock.unread| >= 1)
      modifies this, sock`rQi, sock`consumed, sock`unread, display, raw, rre, hextile, hextile.tileBuffer
      ensures sock.Valid() && hextile.Valid() && display.events == old(display.events) + out
      ensures |sock.unread| <= |old(sock.unread)|
      ensures ok ==> Valid() && rects == 0 && Reaches(c, q0, done + out, Abs(), sock.unread)
      ensures ok ==> old(rects) > 0 || |sock.unread| < |old(sock.unread)|
      ensures !ok ==> Halts(c, q0, done + out, Abs(), sock.unread)
      ensures !ok && live ==> Valid()
    {
      hide ConnOk, Halts, Reaches, UpdateAt;
      out := [];
      assert done + [] == done;
      if rects == 0 {
        ghost var before := sock.Queue();
        ReachOk(c, q0, done, Abs(), sock.unread);
        var msgType := TakeType(c, q0, done);
        if msgType != 0 {
          ok, out := OtherMessage(msgType, c, q0, done, before.unread);
          if ok {
            ReachOk(c, q0, done + out, Abs(), sock.unread);
          }
          return;
        }
        ok := UpdateStart(c, q0, done, before, before.unread);
        if !ok {
          return;
        }
      } else {
        ReachIsUpdate(c, q0, done, Abs(), sock.unread);
      }
      ok, out := Update(c, q0, done);
    }

    method TakeType(ghost c: Conn, ghost q0: seq<byte>, ghost done: seq<Event>) returns (t: byte)
      requires Valid() && rects == 0 && |sock.unread| >= 1 && Reaches(c, q0, done, Abs(), sock.unread)
      modifies sock`rQi, sock`consumed, sock`unread
      ensures Valid() && header == None && t == old(sock.unread)[0]
      ensures sock.rQi >= 1 && sock.Queue() == old(sock.Queue()).Take(1)
    {
      ReachOk(c, q0, done, Abs(), sock.unread);
      FirstByte(sock.unread);
      hide ConnOk, Reaches, BigEndian;
      var v := sock.Shift(1);
      t := v;
    }

    /** The rest of an update and, once it is complete, the next request. */
    method Update(ghost c: Conn, ghost q0: seq<byte>, ghost done: seq<Event>) returns (ok: bool, ghost out: seq<Event>)
      requires Valid() && UpdateAt(c, q0, done, Abs(), sock.unread) && (rects == 0 ==> header == None)
      modifies this, sock`rQi, sock`consumed, sock`unread, display, raw, rre, hextile, hextile.tileBuffer
      ensures sock.Valid() && hextile.Valid() && display.events == old(display.events) + out
      ensures |sock.unread| <= |old(sock.unread)|
      ensures ok ==> Valid() && rects == 0 && Reaches(c, q0, done + out, Abs(), sock.unread)
      ensures !ok ==> Halts(c, q0, done + out, Abs(), sock.unread)
      ensures !ok && live ==> Valid()
    {
      hide ConnOk, Halts, Reaches, UpdateAt;
      ok, out := FramebufferUpdate(c, q0, done);
      if ok && !enabledContinuous {
        display.Add(UpdateRequest(fbW, fbH));
        assert done + out + [UpdateRequest(fbW, fbH)] == done + (out + [UpdateRequest(fbW, fbH)]);
        out := out + [UpdateRequest(fbW, fbH)];
      } else if ok {
        assert done + out + [] == done + out;
      }
    }

    method EndOfContinuousUpdates(ghost c: Conn, ghost q0: seq<byte>, ghost done: seq<Event>, ghost q: seq<byte>)
        returns (ghost out: seq<Event>)
      requires MessageAt(c, q0, done, Abs(), q, 150)
      modifies `supportsContinuous, `enabledContinuous, display
      ensures display.events == old(display.events) + out
      ensures Reaches(c, q0, done + out, Abs(), q[1..])
    {
      EndIs(c, q0, done, Abs(), q);
      hide ConnOk, Reaches, MessageAt;
      out := [];
      var first := !supportsContinuous;
      supportsContinuous := true;
      enabledContinuous := false;
      if first {
        enabledContinuous := true;
        display.Add(EnableUpdates(fbW, fbH));
        out := [EnableUpdates(fbW, fbH)];
      }
    }

    method RingBell(ghost c: Conn, ghost q0: seq<byte>, ghost done: seq<Event>, ghost q: seq<byte>)
      requires MessageAt(c, q0, done, Abs(), q, 2)
      modifies display
      ensures display.events == old(display.events) + [Bell]
      ensures Reaches(c, q0, done + [Bell], Abs(), q[1..])
    {
      BellIs(c, q0, done, Abs(), q);
      hide ConnOk, Reaches, MessageAt;
      display.Add(Bell);
    }

    /** Colour map entries are refused; some messages are not part of the model. */
    method Refuse(t: byte, e: Event, ghost c: Conn, ghost q0: seq<byte>, ghost done: seq<Event>, ghost q: seq<byte>)
      requires t in {1, 3, 248, 250} && e == (if t == 1 then Failed else Unmodelled)
      requires MessageAt(c, q0, done, Abs(), q, t)
      modifies `live, display
      ensures display.events == old(display.events) + [e]
      ensures !live && Halts(c, q0, done + [e], Abs(), q[1..])
    {
      RefusedIs(c, q0, done, Abs(), q, t);
      hide ConnOk, Halts, MessageAt;
      display.Add(e);
      live := false;
    }

    /** An unknown message fails the connection, but does not end the loop. */
    method UnknownMessage(t: byte, ghost c: Conn, ghost q0: seq<byte>, ghost done: seq<Event>, ghost q: seq<byte>)
      requires t !in KNOWN_TYPES && MessageAt(c, q0, done, Abs(), q, t)
      modifies `live, display
      ensures display.events == old(display.events) + [Failed]
      ensures Reaches(c, q0, done + [Failed], Abs(), q[1..])
    {
      UnknownIs(c, q0, done, Abs(), q, t);
      hide ConnOk, Reaches, MessageAt;
      display.Add(Failed);
      live := false;
    }

    /** A message other than an update, its type byte taken. */
    method OtherMessage(msgType: byte, ghost c: Conn, ghost q0: seq<byte>, ghost done: seq<Event>, ghost q: seq<byte>)
        returns (ok: bool, ghost out: seq<Event>)
      requires msgType != 0 && MessageAt(c, q0, done, Abs(), q, msgType)
      modifies `live, `supportsContinuous, `enabledContinuous, display
      ensures display.events == old(display.events) + out
      ensures ok ==> Reaches(c, q0, done + out, Abs(), q[1..])
      ensures !ok ==> !live && Halts(c, q0, done + out, Abs(), q[1..])
    {
      hide ConnOk, Halts, Reaches, MessageAt;
      match msgType
      case 1 =>
        Refuse(1, Failed, c, q0, done, q);
        return false, [Failed];
      case 2 =>
        RingBell(c, q0, done, q);
        return true, [Bell];
      case 150 =>
        out := EndOfContinuousUpdates(c, q0, done, q);
        return true, out;
      case _ =>
        if msgType == 3 || msgType == 248 || msgType == 250 {
          Refuse(msgType, Unmodelled, c, q0, done, q);
          return false, [Unmodelled];
        }
        UnknownMessage(msgType, c, q0, done, q);
        return true, [Failed];
    }

    /** Everything that can be done with the bytes that have arrived. */
    method HandleMessage()
      requires Valid()
      modifies this, sock`rQi, sock`consumed, sock`unread, display, raw, rre, hextile, hextile.tileBuffer
      ensures sock.Valid() && hextile.Valid()
      ensures var p := if old(live) && old(sock.unread) != [] then Run(old(Abs()), old(sock.unread))
                       else Progress(old(Abs()), old(sock.unread), []);
              && display.events == old(display.events) + p.out && live == p.c.live
              && (live ==> Valid() && Abs() == p.c && sock.unread == p.rest)
    {
      hide ConnOk, Halts, Reaches, Run;
      if sock.rQlen == sock.rQi || !live {
        return;
      }
      ghost var c, q0 := Abs(), sock.unread;
      ghost var done: seq<Event> := [];
      ReachesItself(c, q0);
      while true
        invariant Valid() && Reaches(c, q0, done, Abs(), sock.unread) && (rects > 0 || |sock.unread| >= 1)
        invariant display.events == old(display.events) + done
        decreases |sock.unread|, rects
      {
        ghost var out;
        var ok;
        ok, out := NormalMessage(c, q0, done);
        assert old(display.events) + done + out == old(display.events) + (done + out);
        done := done + out;
        if !ok {
          HaltsIsRun(c, q0, done, Abs(), sock.unread);
          break;
        }
        var wait := sock.Wait(1, 0);
        if wait == Some(true) {
          ReachEmpty(c, q0, done, Abs(), sock.unread);
          HaltsIsRun(c, q0, done, Abs(), sock.unread);
          break;
        }
      }
    }

    /** The state, the bytes not yet used, and everything done so far. */
    ghost function Status(): Progress
      reads this, raw, rre, hextile, sock, display
    {
      Progress(Abs(), sock.unread, display.events)
    }

    /** Between arrivals nothing more can be done with the bytes at hand. */
    ghost predicate Resting()
      reads this, sock, sock.rQ, raw, rre, hextile
    {
      Valid() && (live ==> ConnStep(Abs(), sock.unread) == Wait)
    }

    /** One arrival. Fails only when the receive buffer overflows. */
    method OnMessage(bytes: seq<byte>) returns (ok: bool)
      requires Resting()
      modifies this, sock, sock.rQ, display, raw, rre, hextile, hextile.tileBuffer
      ensures ok <==> |old(sock.unread)| + |bytes| <= MAX_RQ_GROW_SIZE
      ensures ok ==> var p := Arrive(old(Status()), bytes); live == p.c.live && display.events == p.out
      ensures ok && live ==> Resting() && Status() == Arrive(old(Status()), bytes)
      ensures ok ==> sock.rQ == old(sock.rQ) || fresh(sock.rQ)
    {
      ghost var p := Status();
      hide ConnOk, Run, ConnStep;
      ok := sock.ReceiveMessage(bytes);
      if !ok {
        return;
      }
      HandleMessage();
      RestsAgain(p, bytes);
    }

    /** Any number of arrivals, until the connection fails. While the receive
        buffer does not overflow the outcome is that of the machine, and that of
        the whole stream at once unless the stream is overread. */
    method ReceiveAll(arrivals: seq<seq<byte>>) returns (ok: bool)
      requires Resting() && live
      modifies this, sock, sock.rQ, display, raw, rre, hextile, hextile.tileBuffer
      ensures ok ==> Resting() && live && Status() == Deliver(old(Status()), arrivals)
      ensures |old(sock.unread)| + |Concat(arrivals)| <= MAX_RQ_GROW_SIZE ==>
                var goal := Deliver(old(Status()), arrivals);
                && ok == goal.c.live && display.events == goal.out
                && (!Overreads(old(Abs()), old(sock.unread) + Concat(arrivals)) ==> goal == Arrive(old(Status()), Concat(arrivals)))
    {
      hide ConnOk, Run, ConnStep, Arrive, Deliver, Overreads;
      ghost var p := Status();
      ghost var goal := Deliver(p, arrivals);
      WholeStream(p, arrivals);
      var i := 0;
      assert arrivals[0..] == arrivals;
      while i < |arrivals|
        invariant 0 <= i <= |arrivals| && Resting() && live
        invariant Deliver(Status(), arrivals[i..]) == goal
        invariant |sock.unread| + |Concat(arrivals[i..])| <= |old(sock.unread)| + |Concat(arrivals)|
        invariant sock.rQ == old(sock.rQ) || fresh(sock.rQ)
      {
        NextArrival(Status(), arrivals, i);
        ok := OnMessage(arrivals[i]);
        if !ok || !live {
          return false;
        }
        i := i + 1;
      }
      NoArrivals(Status(), arrivals[i..]);
      return true;
    }
  }

  lemma WholeStream(p: Progress, arrivals: seq<seq<byte>>)
    requires ConnOk(p.c) && p.c.live && ConnStep(p.c, p.rest) == Wait
    ensures !Overreads(p.c, p.rest + Concat(arrivals)) ==> Deliver(p, arrivals) == Arrive(p, Concat(arrivals))
  {
    hide ConnOk, ConnStep, Overreads, Deliver, Arrive;
    if !Overreads(p.c, p.rest + Concat(arrivals)) {
      CutsDoNotMatter(p, arrivals);
    }
  }

  lemma NoArrivals(p: Progress, arrivals: seq<seq<byte>>)
    requires ConnOk(p.c) && arrivals == []
    ensures Deliver(p, arrivals) == p
  {
  }

  /** The next arrival: it is part of what is still to come, and if it fails the
      connection the outcome is settled. */
  lemma NextArrival(p: Progress, arrivals: seq<seq<byte>>, i: nat)
    requires ConnOk(p.c) && i < |arrivals|
    ensures var next, later := Arrive(p, arrivals[i]), arrivals[i + 1..];
            && ConnOk(next.c) && Deliver(p, arrivals[i..]) == Deliver(next, later)
            && |next.rest| + |Concat(later)| <= |p.rest| + |Concat(arrivals[i..])|
            && |arrivals[i]| <= |Concat(arrivals[i..])|
            && (!next.c.live ==> !Deliver(next, later).c.live && Deliver(next, later).out == next.out)
  {
    var rest := arrivals[i..];
    assert rest[0] == arrivals[i] && rest[1..] == arrivals[i + 1..];
    hide ConnOk, Run;
    ArriveOk(p, arrivals[i]);
    if p.c.live {
      RestShrinks(p.c, p.rest + arrivals[i]);
    }
    var next := Arrive(p, arrivals[i]);
    if !next.c.live {
      FailedDelivers(next, rest[1..]);
    }
  }

  /** After an arrival has been handled nothing is left to do. */
  lemma RestsAgain(p: Progress, bytes: seq<byte>)
    requires ConnOk(p.c) && (p.c.live ==> ConnStep(p.c, p.rest) == Wait)
    ensures var r := if p.c.live && p.rest + bytes != [] then Run(p.c, p.rest + bytes) else Progress(p.c, p.rest + bytes, []);
            var a := Arrive(p, bytes);
            && a.c.live == r.c.live && a.out == p.out + r.out
            && (a.c.live ==> a == Progress(r.c, r.rest, p.out + r.out) && ConnOk(r.c) && ConnStep(r.c, r.rest) == Wait)
  {
    var q := p.rest + bytes;
    hide ConnOk;
    if p.c.live {
      if Run(p.c, q).c.live {
        RunRests(p.c, q);
      }
      if q == [] {
        assert p.rest == q;
        assert Run(p.c, q) == Progress(p.c, q, []);
      }
    }
  }

  lemma FirstByte(q: seq<byte>)
    requires |q| >= 1
    ensures BigEndian(q[..1]) == q[0]
  {
    assert q[..1] == [q[0]];
    BigEndian1(q[0]);
  }

  lemma UpdateOk(c: Conn, q0: seq<byte>, out: seq<Event>, d: Conn, q: seq<byte>)
    requires UpdateAt(c, q0, out, d, q)
    ensures ConnOk(d)
  {
  }

  lemma ReachIsUpdate(c: Conn, q0: seq<byte>, out: seq<Event>, d: Conn, q: seq<byte>)
    requires Reaches(c, q0, out, d, q) && d.rects > 0
    ensures UpdateAt(c, q0, out, d, q)
  {
  }

  lemma ReachEmpty(c: Conn, q0: seq<byte>, out: seq<Event>, d: Conn, q: seq<byte>)
    requires Reaches(c, q0, out, d, q) && d.rects == 0 && q == []
    ensures Halts(c, q0, out, d, q)
  {
    ReachWait(c, q0, out, d, q);
  }

  lemma HaltsIsRun(c: Conn, q0: seq<byte>, out: seq<Event>, d: Conn, q: seq<byte>)
    requires Halts(c, q0, out, d, q)
    ensures var p := Run(c, q0);
            p.out == out && p.c.live == d.live && (d.live ==> p == Progress(d, q, out))
  {
  }

  /** The run has come to a message of type t. */
  ghost predicate MessageAt(c: Conn, q0: seq<byte>, done: seq<Event>, d: Conn, q: seq<byte>, t: byte) {
    Reaches(c, q0, done, d, q) && d.rects == 0 && |q| >= 1 && q[0] == t
  }

  lemma BellIs(c: Conn, q0: seq<byte>, done: seq<Event>, d: Conn, q: seq<byte>)
    requires MessageAt(c, q0, done, d, q, 2)
    ensures Reaches(c, q0, done + [Bell], d, q[1..])
  {
    var s := ConnStep(d, q);
    assert s == Go(d, 1, [Bell]);
    hide ConnOk, ConnStep, Reaches, Run;
    ReachStep(c, q0, done, d, q, s);
  }

  lemma EndIs(c: Conn, q0: seq<byte>, done: seq<Event>, d: Conn, q: seq<byte>)
    requires MessageAt(c, q0, done, d, q, 150)
    ensures var out := if d.supportsContinuous then [] else [EnableUpdates(d.fbW, d.fbH)];
            Reaches(c, q0, done + out, d.(supportsContinuous := true, enabledContinuous := !d.supportsContinuous), q[1..])
  {
    var s := ConnStep(d, q);
    assert s.Go? && s.taken == 1;
    assert s.state == d.(supportsContinuous := true, enabledContinuous := !d.supportsContinuous);
    assert s.out == if d.supportsContinuous then [] else [EnableUpdates(d.fbW, d.fbH)];
    hide ConnOk, ConnStep, Reaches, Run;
    ReachStep(c, q0, done, d, q, s);
  }

  lemma RefusedIs(c: Conn, q0: seq<byte>, done: seq<Event>, d: Conn, q: seq<byte>, t: byte)
    requires t in {1, 3, 248, 250} && MessageAt(c, q0, done, d, q, t)
    ensures var e := if t == 1 then Failed else Unmodelled;
            Halts(c, q0, done + [e], d.(live := false), q[1..])
  {
    var e := if t == 1 then Failed else Unmodelled;
    assert ConnStep(d, q) == Stop(e);
    hide ConnOk, ConnStep, Run;
    ReachStop(c, q0, done, d, q, e);
  }

  lemma UnknownIs(c: Conn, q0: seq<byte>, done: seq<Event>, d: Conn, q: seq<byte>, t: byte)
    requires t !in KNOWN_TYPES && MessageAt(c, q0, done, d, q, t)
    ensures Reaches(c, q0, done + [Failed], d.(live := false), q[1..])
  {
    var s := ConnStep(d, q);
    assert s == Go(d.(live := false), 1, [Failed]);
    hide ConnOk, ConnStep, Reaches, Run;
    ReachStep(c, q0, done, d, q, s);
  }

  lemma UpdateEnds(c: Conn, q0: seq<byte>, done: seq<Event>, out: seq<Event>, d: Conn, q: seq<byte>)
    requires UpdateAt(c, q0, done + out, d, q) && d.rects == 0
    ensures Reaches(c, q0, done + (out + [Flip]) + (if d.enabledContinuous then [] else [UpdateRequest(d.fbW, d.fbH)]), d, q)
  {
    var last := if d.enabledContinuous then [] else [UpdateRequest(d.fbW, d.fbH)];
    assert done + (out + [Flip]) + last == done + out + EndUpdate(d);
  }
}
