/** The resumable Raw and RRE decoders (sections 7.7.1 and 7.7.3 of RFC 6143). */
module RawAndRre {
  import opened Bytes
  import opened ReceiveQueue
  import opened Tiles
  import opened RectSteps
  import opened UpdateLoop
  import opened RunFollowing

  // One row, as the machine and as the decoder see it.

  lemma RawStarts(d: Conn, r: Rect, q: seq<byte>)
    requires ConnOk(d) && d.header == Some(RectHeader(r, ENCODING_RAW)) && d.lines == 0 && r.w > 0 && r.h > 0
    ensures ConnStep(d, q) == Go(d.(lines := r.h), 0, [])
  {
  }

  lemma RawEmpty(d: Conn, r: Rect, q: seq<byte>)
    requires ConnOk(d) && d.header == Some(RectHeader(r, ENCODING_RAW)) && (r.w == 0 || r.h == 0)
    ensures ConnStep(d, q) == FinishRect(d, 0, [])
  {
  }

  lemma RawLine(d: Conn, r: Rect, q: seq<byte>)
    requires ConnOk(d) && d.header == Some(RectHeader(r, ENCODING_RAW)) && d.lines > 0 && r.w > 0 && r.h > 0
    ensures var n := BytesPerLine(r, d.depth8);
            if |q| < n then ConnStep(d, q) == Wait else
            var out := [BlitImage(r.x, r.y + (r.h - d.lines), r.w, 1, RowPixels(q[..n], r.w, d.depth8))];
            var d' := d.(lines := d.lines - 1);
            ConnStep(d, q) == if d.lines == 1 then FinishRect(d', n, out) else Go(d', n, out)
  {
  }

  /** The rows still to come; none means the rectangle is complete. */
  ghost predicate RawAt(c: Conn, q0: seq<byte>, out: seq<Event>, r: Rect, lines: nat, q: seq<byte>) {
    var d := c.(lines := lines);
    c.header == Some(RectHeader(r, ENCODING_RAW)) && r.w > 0 && r.h > 0 &&
    if lines > 0 then Reaches(c, q0, out, d, q) else Completes(c, q0, out, d, q)
  }

  lemma RawBegin(c: Conn, r: Rect, q: seq<byte>)
    requires ConnOk(c) && c.header == Some(RectHeader(r, ENCODING_RAW))
    ensures r.w == 0 || r.h == 0 ==> Completes(c, q, [], c, q)
    ensures r.w > 0 && r.h > 0 ==> RawAt(c, q, [], r, if c.lines == 0 then r.h else c.lines, q)
  {
    ReachesItself(c, q);
    assert q[0..] == q;
    if r.w == 0 || r.h == 0 {
      RawEmpty(c, r, q);
      ReachFinish(c, q, [], c, q, c, 0, []);
    } else if c.lines == 0 {
      RawStarts(c, r, q);
      ReachStep(c, q, [], c, q, Go(c.(lines := r.h), 0, []));
    }
  }

  lemma RawNext(c: Conn, q0: seq<byte>, out: seq<Event>, r: Rect, lines: nat, q: seq<byte>)
    requires RawAt(c, q0, out, r, lines, q) && lines > 0
    ensures var n := BytesPerLine(r, c.depth8);
            if |q| < n then Blocks(c, q0, out, c.(lines := lines), q) else
            var e := BlitImage(r.x, r.y + (r.h - lines), r.w, 1, RowPixels(q[..n], r.w, c.depth8));
            RawAt(c, q0, out + [e], r, lines - 1, q[n..])
  {
    var d, n := c.(lines := lines), BytesPerLine(r, c.depth8);
    RawLine(d, r, q);
    if |q| < n {
      ReachWait(c, q0, out, d, q);
    } else {
      var e := BlitImage(r.x, r.y + (r.h - lines), r.w, 1, RowPixels(q[..n], r.w, c.depth8));
      var d' := d.(lines := lines - 1);
      if lines == 1 {
        ReachFinish(c, q0, out, d, q, d', n, [e]);
      } else {
        ReachStep(c, q0, out, d, q, Go(d', n, [e]));
      }
    }
  }

  lemma ExpandedPixel(line: seq<byte>, w: nat, i: nat)
    requires |line| == w && i < w
    ensures var goal := RowPixels(line, w, true);
            goal[..4 * i + 4] == goal[..4 * i] + [Channel(line[i], 0), Channel(line[i], 1), Channel(line[i], 2), 255]
  {
    hide Channel;
    var goal := RowPixels(line, w, true);
    forall c | 0 <= c < 4
      ensures goal[4 * i + c] == if c == 3 then 255 else Channel(line[i], c)
    {
      assert (4 * i + c) / 4 == i && (4 * i + c) % 4 == c;
    }
  }

  class RawDecoder {
    var lines: nat

    constructor ()
      ensures lines == 0
    {
      lines := 0;
    }

    method ExpandRow(line: seq<byte>, w: nat) returns (pixels: array<byte>)
      requires |line| == w
      ensures fresh(pixels) && pixels[..] == RowPixels(line, w, true)
    {
      hide RowPixels;
      pixels := new byte[4 * w](_ => 0);
      ghost var goal := RowPixels(line, w, true);
      for i := 0 to w
        invariant pixels[..4 * i] == goal[..4 * i]
      {
        ExpandedPixel(line, w, i);
        pixels[i * 4] := Channel(line[i], 0);
        pixels[i * 4 + 1] := Channel(line[i], 1);
        pixels[i * 4 + 2] := Channel(line[i], 2);
        pixels[i * 4 + 3] := 255;
        assert pixels[..4 * i + 4] == pixels[..4 * i] + [Channel(line[i], 0), Channel(line[i], 1), Channel(line[i], 2), 255];
      }
    }

    method ConvertRow(line: seq<byte>, w: nat, depth8: bool) returns (data: seq<byte>)
      requires |line| == w * (if depth8 then 1 else 4)
      ensures data == RowPixels(line, w, depth8)
    {
      var pixels: array<byte>;
      if depth8 {
        pixels := ExpandRow(line, w);
        assert RowPixels(pixels[..], w, false) == RowPixels(line, w, true);
      } else {
        pixels := new byte[4 * w](k requires 0 <= k < 4 * w => line[k]);
        assert pixels[..] == line;
      }
      MakeOpaque(pixels, w);
      data := pixels[..];
    }

    method TakeLine(r: Rect, sock: ReceiveBuffer, depth8: bool, n: nat) returns (data: seq<byte>)
      requires sock.Valid() && n == BytesPerLine(r, depth8) && n <= |sock.unread|
      modifies sock`rQi, sock`consumed, sock`unread
      ensures sock.Valid() && sock.unread == old(sock.unread)[n..]
      ensures data == RowPixels(old(sock.unread)[..n], r.w, depth8)
    {
      hide RowPixels;
      var line := sock.ShiftBytes(n);
      data := ConvertRow(line, r.w, depth8);
    }

    method DecodeLine(r: Rect, sock: ReceiveBuffer, display: EventLog, depth8: bool, bytesPerLine: nat,
                      ghost c: Conn, ghost q0: seq<byte>, ghost out: seq<Event>)
        returns (ok: bool, ghost e: Event)
      requires sock.Valid() && lines > 0 && RawAt(c, q0, out, r, lines, sock.unread)
      requires c.depth8 == depth8 && bytesPerLine == BytesPerLine(r, depth8)
      modifies this, sock`rQi, sock`consumed, sock`unread, display
      ensures |sock.unread| <= |old(sock.unread)|
      ensures sock.Valid()
      ensures ok ==> display.events == old(display.events) + [e] && lines == old(lines) - 1
                     && RawAt(c, q0, out + [e], r, lines, sock.unread)
      ensures !ok ==> display.events == old(display.events) && lines == old(lines)
                      && Blocks(c, q0, out, c.(lines := lines), sock.unread)
    {
      hide RawAt, Blocks, RowPixels, BytesPerLine;
      ghost var q := sock.unread;
      RawNext(c, q0, out, r, lines, q);
      var wait := sock.Wait(bytesPerLine, 0);
      e := Failed;
      if wait == Some(true) {
        assert sock.unread == q;
        return false, e;
      }
      var curY := r.y + (r.h - lines);
      var data := TakeLine(r, sock, depth8, bytesPerLine);
      display.Add(BlitImage(r.x, curY, r.w, 1, data));
      lines := lines - 1;
      return true, BlitImage(r.x, curY, r.w, 1, data);
    }

    /** True when the rectangle is complete, false when more bytes are needed. */
    method DecodeRect(r: Rect, sock: ReceiveBuffer, display: EventLog, depth8: bool, ghost c: Conn)
        returns (ok: bool, ghost out: seq<Event>)
      requires sock.Valid() && ConnOk(c) && c.header == Some(RectHeader(r, ENCODING_RAW))
      requires c.lines == lines && c.depth8 == depth8
      modifies this, sock`rQi, sock`consumed, sock`unread, display
      ensures |sock.unread| <= |old(sock.unread)|
      ensures sock.Valid() && display.events == old(display.events) + out
      ensures ok ==> Completes(c, old(sock.unread), out, c.(lines := lines), sock.unread)
      ensures !ok ==> Blocks(c, old(sock.unread), out, c.(lines := lines), sock.unread)
    {
      hide RawAt, Blocks, Completes, ConnOk, RowPixels;
      ghost var q0 := sock.unread;
      out := [];
      RawBegin(c, r, q0);
      if r.w == 0 || r.h == 0 {
        return true, out;
      }
      if lines == 0 {
        lines := r.h;
      }
      var bytesPerLine := r.w * (if depth8 then 1 else 4);
      while lines > 0
        invariant sock.Valid() && display.events == old(display.events) + out
        invariant |sock.unread| <= |old(sock.unread)|
        invariant RawAt(c, q0, out, r, lines, sock.unread)
        decreases lines
      {
        ghost var e;
        ok, e := DecodeLine(r, sock, display, depth8, bytesPerLine, c, q0, out);
        if !ok {
          return false, out;
        }
        out := out + [e];
      }
      RawEnd(c, q0, out, r, sock.unread);
      return true, out;
    }
  }

  lemma RawEnd(c: Conn, q0: seq<byte>, out: seq<Event>, r: Rect, q: seq<byte>)
    requires RawAt(c, q0, out, r, 0, q)
    ensures Completes(c, q0, out, c.(lines := 0), q)
  {
  }

  // RRE

  /** The subrectangles still to come; none means the rectangle is complete. */
  ghost predicate RreAt(c: Conn, q0: seq<byte>, out: seq<Event>, r: Rect, subrects: nat, q: seq<byte>) {
    var d := c.(subrects := subrects);
    c.header == Some(RectHeader(r, ENCODING_RRE)) &&
    if subrects > 0 then Reaches(c, q0, out, d, q) else Completes(c, q0, out, d, q)
  }

  function Subrect(r: Rect, q: seq<byte>): Event
    requires |q| >= 12
  {
    FillRect(r.x + BigEndian(q[4..6]), r.y + BigEndian(q[6..8]), BigEndian(q[8..10]), BigEndian(q[10..12]), q[..4])
  }

  lemma RreStepIs(d: Conn, r: Rect, q: seq<byte>)
    requires ConnOk(d) && d.header == Some(RectHeader(r, ENCODING_RRE))
    ensures d.subrects == 0 ==>
              if |q| < 8 then ConnStep(d, q) == Wait else
              var n, e := BigEndian(q[..4]), FillRect(r.x, r.y, r.w, r.h, q[4..8]);
              ConnStep(d, q) == if n == 0 then FinishRect(d.(subrects := 0), 8, [e]) else Go(d.(subrects := n), 8, [e])
    ensures d.subrects > 0 ==>
              if |q| < 12 then ConnStep(d, q) == Wait else
              var d' := d.(subrects := d.subrects - 1);
              ConnStep(d, q) == if d.subrects == 1 then FinishRect(d', 12, [Subrect(r, q)]) else Go(d', 12, [Subrect(r, q)])
  {
  }

  lemma RreBegin(c: Conn, r: Rect, q: seq<byte>)
    requires ConnOk(c) && c.header == Some(RectHeader(r, ENCODING_RRE))
    ensures c.subrects > 0 ==> RreAt(c, q, [], r, c.subrects, q)
    ensures c.subrects == 0 ==>
              if |q| < 8 then Blocks(c, q, [], c, q)
              else RreAt(c, q, [FillRect(r.x, r.y, r.w, r.h, q[4..8])], r, BigEndian(q[..4]), q[8..])
  {
    ReachesItself(c, q);
    RreStepIs(c, r, q);
    if c.subrects == 0 {
      if |q| < 8 {
        ReachWait(c, q, [], c, q);
      } else {
        var n, e := BigEndian(q[..4]), FillRect(r.x, r.y, r.w, r.h, q[4..8]);
        assert [] + [e] == [e];
        if n == 0 {
          ReachFinish(c, q, [], c, q, c, 8, [e]);
        } else {
          ReachStep(c, q, [], c, q, Go(c.(subrects := n), 8, [e]));
        }
      }
    }
  }

  lemma RreNext(c: Conn, q0: seq<byte>, out: seq<Event>, r: Rect, subrects: nat, q: seq<byte>)
    requires RreAt(c, q0, out, r, subrects, q) && subrects > 0
    ensures if |q| < 12 then Blocks(c, q0, out, c.(subrects := subrects), q)
            else RreAt(c, q0, out + [Subrect(r, q)], r, subrects - 1, q[12..])
  {
    var d := c.(subrects := subrects);
    RreStepIs(d, r, q);
    if |q| < 12 {
      ReachWait(c, q0, out, d, q);
    } else {
      var d' := d.(subrects := subrects - 1);
      if subrects == 1 {
        ReachFinish(c, q0, out, d, q, d', 12, [Subrect(r, q)]);
      } else {
        ReachStep(c, q0, out, d, q, Go(d', 12, [Subrect(r, q)]));
      }
    }
  }

  lemma RreEnd(c: Conn, q0: seq<byte>, out: seq<Event>, r: Rect, q: seq<byte>)
    requires RreAt(c, q0, out, r, 0, q)
    ensures Completes(c, q0, out, c.(subrects := 0), q)
  {
  }

  class RreDecoder {
    var subrects: nat

    constructor ()
      ensures subrects == 0
    {
      subrects := 0;
    }

    method DecodeRect(r: Rect, sock: ReceiveBuffer, display: EventLog, ghost c: Conn)
        returns (ok: bool, ghost out: seq<Event>)
      requires sock.Valid() && ConnOk(c) && c.header == Some(RectHeader(r, ENCODING_RRE))
      requires c.subrects == subrects
      modifies this, sock`rQi, sock`consumed, sock`unread, display
      ensures |sock.unread| <= |old(sock.unread)|
      ensures sock.Valid() && display.events == old(display.events) + out
      ensures ok ==> Completes(c, old(sock.unread), out, c.(subrects := subrects), sock.unread)
      ensures !ok ==> Blocks(c, old(sock.unread), out, c.(subrects := subrects), sock.unread)
    {
      hide RreAt, Blocks, Completes, ConnOk;
      ghost var q0 := sock.unread;
      out := [];
      RreBegin(c, r, q0);
      if subrects == 0 {
        ok, out := DecodeHeader(r, sock, display, c);
        if !ok {
          return false, out;
        }
      }
      while subrects > 0
        invariant sock.Valid() && display.events == old(display.events) + out
        invariant |sock.unread| <= |old(sock.unread)|
        invariant RreAt(c, q0, out, r, subrects, sock.unread)
        decreases subrects
      {
        ghost var e;
        ok, e := DecodeSubrect(r, sock, display, c, q0, out);
        if !ok {
          return false, out;
        }
        out := out + [e];
      }
      RreEnd(c, q0, out, r, sock.unread);
      return true, out;
    }

    method DecodeHeader(r: Rect, sock: ReceiveBuffer, display: EventLog, ghost c: Conn)
        returns (ok: bool, ghost out: seq<Event>)
      requires sock.Valid() && ConnOk(c) && c.header == Some(RectHeader(r, ENCODING_RRE))
      requires c.subrects == subrects == 0
      modifies this, sock`rQi, sock`consumed, sock`unread, display
      ensures |sock.unread| <= |old(sock.unread)|
      ensures sock.Valid() && display.events == old(display.events) + out
      ensures ok ==> RreAt(c, old(sock.unread), out, r, subrects, sock.unread)
      ensures !ok ==> Blocks(c, old(sock.unread), out, c.(subrects := subrects), sock.unread)
    {
      hide RreAt, Blocks, ConnOk, BigEndian;
      ghost var q0 := sock.unread;
      RreBegin(c, r, q0);
      var wait := sock.Wait(4 + 4, 0);
      if wait == Some(true) {
        assert sock.unread == q0;
        return false, [];
      }
      subrects := sock.Shift(4);
      var color := sock.ShiftBytes(4);
      display.Add(FillRect(r.x, r.y, r.w, r.h, color));
      assert q0[4..][..4] == q0[4..8] && q0[4..][4..] == q0[8..];
      return true, [FillRect(r.x, r.y, r.w, r.h, color)];
    }

    method DecodeSubrect(r: Rect, sock: ReceiveBuffer, display: EventLog,
                         ghost c: Conn, ghost q0: seq<byte>, ghost out: seq<Event>)
        returns (ok: bool, ghost e: Event)
      requires sock.Valid() && subrects > 0 && RreAt(c, q0, out, r, subrects, sock.unread)
      modifies this, sock`rQi, sock`consumed, sock`unread, display
      ensures |sock.unread| <= |old(sock.unread)|
      ensures sock.Valid()
      ensures ok ==> display.events == old(display.events) + [e] && subrects == old(subrects) - 1
                     && RreAt(c, q0, out + [e], r, subrects, sock.unread)
      ensures !ok ==> display.events == old(display.events) && subrects == old(subrects)
                      && Blocks(c, q0, out, c.(subrects := subrects), sock.unread)
    {
      hide RreAt, Blocks, Subrect;
      ghost var q := sock.unread;
      RreNext(c, q0, out, r, subrects, q);
      var wait := sock.Wait(4 + 8, 0);
      e := Failed;
      if wait == Some(true) {
        assert sock.unread == q;
        return false, e;
      }
      var fill := ReadSubrect(r, sock);
      display.Add(fill);
      subrects := subrects - 1;
      return true, fill;
    }

    method ReadSubrect(r: Rect, sock: ReceiveBuffer) returns (e: Event)
      requires sock.Valid() && |sock.unread| >= 12
      modifies sock`rQi, sock`consumed, sock`unread
      ensures sock.Valid() && sock.unread == old(sock.unread)[12..]
      ensures e == Subrect(r, old(sock.unread))
    {
      ghost var q := sock.unread;
      var color := sock.ShiftBytes(4);
      var sx, sy := Pair(sock, q, 4);
      var swidth, sheight := Pair(sock, q, 8);
      e := FillRect(r.x + sx, r.y + sy, swidth, sheight, color);
    }

    /** Two 16-bit numbers, found at q[at..]. */
    method Pair(sock: ReceiveBuffer, ghost q: seq<byte>, ghost at: nat) returns (a: nat, b: nat)
      requires sock.Valid() && at + 4 <= |q| && sock.unread == q[at..]
      modifies sock`rQi, sock`consumed, sock`unread
      ensures sock.Valid() && sock.unread == q[at + 4..]
      ensures a == BigEndian(q[at..at + 2]) && b == BigEndian(q[at + 2..at + 4])
    {
      a := sock.Shift(2);
      assert q[at..][..2] == q[at..at + 2] && q[at..][2..] == q[at + 2..];
      b := sock.Shift(2);
      assert q[at + 2..][..2] == q[at + 2..at + 4] && q[at + 2..][2..] == q[at + 4..];
    }
  }
}
