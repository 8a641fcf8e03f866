/** The resumable Tight decoder: nested markers remember how far a rectangle has
    been read, and the decoder ends the same however its bytes arrive. */
module TightRects {
  import opened Bytes
  import opened ReceiveQueue

  /** What survives from one call to the next. */
  datatype Marks = Marks(ctl: Option<nat>, filter: Option<nat>, numColors: nat, palette: seq<byte>, len: nat)

  /** What a rectangle does besides: zlib streams are reset, and pixels drawn. A
      body is raw, or deflated on one of four streams. */
  datatype Out =
    | Reset(stream: nat)
    | Fill(color: seq<byte>)
    | Jpeg(data: seq<byte>)
    | Basic(filter: nat, numColors: nat, palette: seq<byte>, stream: nat, deflated: bool, data: seq<byte>)

  datatype Step =
    | Wait
    | Go(marks: Marks, taken: nat, out: seq<Out>)
    | Done(marks: Marks, taken: nat, out: seq<Out>)
    | Throw

  /** b >> i */
  function Shifted(b: nat, i: nat): nat {
    if i == 0 then b else Shifted(b, i - 1) / 2
  }

  /** The streams below n that the control byte resets. */
  function Resets(b: nat, n: nat): seq<Out> {
    if n == 0 then [] else Resets(b, n - 1) + (if Shifted(b, n - 1) % 2 == 1 then [Reset(n - 1)] else [])
  }

  function RowSize(w: nat, bpp: nat): nat {
    (w * bpp + 7) / 8
  }

  /** The bytes of a body before deflation. */
  function BodySize(m: Marks, w: nat, h: nat): nat
    requires m.filter.Some?
  {
    if m.filter.value == 1 then RowSize(w, if m.numColors <= 2 then 1 else 8) * h else w * h * 3
  }

  function Low7(b: nat): nat {
    b % 128
  }

  // Bits of the control value

  predicate HasBit2(ctl: nat) {
    ctl / 4 % 2 == 1
  }

  predicate HasBit3(ctl: nat) {
    ctl / 8 % 2 == 1
  }

  function StreamOf(ctl: nat): nat {
    ctl % 4
  }

  /** A compact length: seven bits a byte, and all eight of the third. */
  function CompactLength(q: seq<byte>): (nat, nat)
    requires |q| >= 3
    ensures CompactLength(q).1 <= 3
  {
    var a: nat, b: nat, c: nat := q[0], q[1], q[2];
    if a < 128 then (Low7(a), 1)
    else if b < 128 then (Low7(a) + Low7(b) * 128, 2)
    else (Low7(a) + Low7(b) * 128 + c * 16384, 3)
  }

  function Finished(m: Marks): Marks {
    m.(ctl := None, filter := None, len := 0, numColors := if m.filter == Some(1) then 0 else m.numColors)
  }

  /** A body of no bytes is done at once, and leaves the palette's marker as it is. */
  function BodyStep(m: Marks, q: seq<byte>, w: nat, h: nat): Step
    requires m.ctl.Some? && m.filter.Some?
  {
    var size, stream, f := BodySize(m, w, h), StreamOf(m.ctl.value), m.filter.value;
    if size == 0 then Done(m.(ctl := None, filter := None), 0, [])
    else if size < 12 then
      if |q| < size then Wait
      else Done(Finished(m).(len := m.len), size, [Basic(f, m.numColors, m.palette, stream, false, q[..size])])
    else DataStep(m, q, Finished(m), (data: seq<byte>) => [Basic(f, m.numColors, m.palette, stream, true, data)])
  }

  /** Data with its length in front. */
  function DataStep(m: Marks, q: seq<byte>, end: Marks, use: seq<byte> -> seq<Out>): Step {
    if m.len > 0 then
      if |q| < m.len then Wait else Done(end, m.len, use(q[..m.len]))
    else if |q| < 3 then Wait
    else
      var (len, taken) := CompactLength(q);
      if len == 0 then Done(end, taken, use([])) else Go(m.(len := len), taken, [])
  }

  /** The palette's buffer keeps what lies beyond the colours read. */
  function Overwrite(palette: seq<byte>, s: seq<byte>): seq<byte> {
    if |s| <= |palette| then s + palette[|s|..] else s
  }

  function PaletteStep(m: Marks, q: seq<byte>): Step {
    if |q| < 1 then Wait else
    var colors: nat := q[0];
    var size := (colors + 1) * 3;
    if |q| < 1 + size then Wait
    else Go(m.(numColors := colors + 1, palette := Overwrite(m.palette, q[1..1 + size])), 1 + size, [])
  }

  function BasicStep(m: Marks, q: seq<byte>, w: nat, h: nat): Step
    requires m.ctl.Some?
  {
    if m.filter.None? then
      if !HasBit2(m.ctl.value) then Go(m.(filter := Some(0)), 0, [])
      else if |q| < 1 then Wait
      else Go(m.(filter := Some(q[0])), 1, [])
    else if m.filter.value > 2 then Throw
    else if m.filter.value == 1 && m.numColors == 0 then PaletteStep(m, q)
    else BodyStep(m, q, w, h)
  }

  function TightStep(m: Marks, q: seq<byte>, w: nat, h: nat): Step {
    if m.ctl.None? then
      if |q| < 1 then Wait else Go(m.(ctl := Some(q[0] / 16)), 1, Resets(q[0], 4))
    else if m.ctl.value == 8 then
      if |q| < 3 then Wait else Done(m.(ctl := None), 3, [Fill(q[..3])])
    else if m.ctl.value == 9 then DataStep(m, q, m.(ctl := None, len := 0), (data: seq<byte>) => [Jpeg(data)])
    else if !HasBit3(m.ctl.value) then BasicStep(m, q, w, h)
    else Throw
  }

  /** Each step that does not end the rectangle sets a marker. */
  function Unset(m: Marks): nat {
    (if m.ctl.None? then 1 else 0) + (if m.filter.None? then 1 else 0)
    + (if m.numColors == 0 then 1 else 0) + (if m.len == 0 then 1 else 0)
  }

  lemma StepSets(m: Marks, q: seq<byte>, w: nat, h: nat)
    ensures TightStep(m, q, w, h).Go? ==> Unset(TightStep(m, q, w, h).marks) < Unset(m)
    ensures TightStep(m, q, w, h).Go? || TightStep(m, q, w, h).Done? ==> TightStep(m, q, w, h).taken <= |q|
  {
  }

  /** One call: where it stopped, what is left, and what it did. */
  datatype Call = Waits(marks: Marks, rest: seq<byte>, out: seq<Out>)
    | Ends(marks: Marks, rest: seq<byte>, out: seq<Out>)
    | Throws(out: seq<Out>)

  function After(out: seq<Out>, c: Call): Call {
    match c
    case Waits(m, rest, o) => Waits(m, rest, out + o)
    case Ends(m, rest, o) => Ends(m, rest, out + o)
    case Throws(o) => Throws(out + o)
  }

  function TightCall(m: Marks, q: seq<byte>, w: nat, h: nat): Call
    decreases Unset(m)
  {
    StepSets(m, q, w, h);
    match TightStep(m, q, w, h)
    case Wait => Waits(m, q, [])
    case Go(m', n, out) => After(out, TightCall(m', q[n..], w, h))
    case Done(m', n, out) => Ends(m', q[n..], out)
    case Throw => Throws([])
  }

  lemma LengthIsLocal(a: seq<byte>, b: seq<byte>)
    ensures |a| >= 3 ==> CompactLength(a + b) == CompactLength(a)
  {
  }

  /** A step looks at nothing beyond the bytes that it takes. */
  lemma StepIsLocal(m: Marks, a: seq<byte>, b: seq<byte>, w: nat, h: nat)
    requires TightStep(m, a, w, h) != Wait
    ensures TightStep(m, a + b, w, h) == TightStep(m, a, w, h)
  {
    LengthIsLocal(a, b);
    forall n: nat | n <= |a|
      ensures (a + b)[..n] == a[..n]
    {
    }
    hide CompactLength, Resets, BodySize, Overwrite, HasBit2, HasBit3;
    if a != [] {
      var size := (a[0] as nat + 1) * 3;
      if |a| >= 1 + size {
        assert (a + b)[1..1 + size] == a[1..1 + size];
      }
    }
  }

  /** However a rectangle's bytes arrive: a call that waited, continued when more
      is there, has done and left what one call does and leaves. */
  lemma {:induction false} TightResumes(m: Marks, a: seq<byte>, b: seq<byte>, w: nat, h: nat)
    ensures match TightCall(m, a, w, h)
            case Waits(m', rest, out) => TightCall(m, a + b, w, h) == After(out, TightCall(m', rest + b, w, h))
            case Ends(m', rest, out) => TightCall(m, a + b, w, h) == Ends(m', rest + b, out)
            case Throws(out) => TightCall(m, a + b, w, h) == Throws(out)
    decreases Unset(m)
  {
    hide TightStep;
    StepSets(m, a, w, h);
    var step := TightStep(m, a, w, h);
    if step == Wait {
      AfterNothing(TightCall(m, a + b, w, h));
    } else {
      StepIsLocal(m, a, b, w, h);
      if step.Go? || step.Done? {
        assert (a + b)[step.taken..] == a[step.taken..] + b;
      }
      if step.Go? {
        TightResumes(step.marks, a[step.taken..], b, w, h);
        var c := TightCall(step.marks, a[step.taken..], w, h);
        if c.Waits? {
          AfterTwice(step.out, c.out, TightCall(c.marks, c.rest + b, w, h));
        }
      }
    }
  }

  lemma AfterNothing(c: Call)
    ensures After([], c) == c
  {
    assert [] + c.out == c.out;
  }

  lemma AfterTwice(a: seq<Out>, b: seq<Out>, c: Call)
    ensures After(a, After(b, c)) == After(a + b, c)
  {
    assert a + (b + c.out) == a + b + c.out;
  }

  class TightReader {
    var ctl: Option<nat>
    var filter: Option<nat>
    var numColors: nat
    var palette: seq<byte>
    var len: nat
    var out: seq<Out>     // the resets and drawings so far

    ghost function Now(): Marks
      reads this
    {
      Marks(ctl, filter, numColors, palette, len)
    }

    constructor ()
      ensures Now() == Marks(None, None, 0, seq(1024, k => 0), 0) && out == []
    {
      ctl, filter, numColors, palette, len, out := None, None, 0, seq(1024, k => 0), 0, [];
    }

    /** A wait that never goes back over bytes already read. */
    method Lacks(sock: ReceiveBuffer, n: nat) returns (lacks: bool)
      requires sock.Valid()
      modifies sock`rQi, sock`consumed, sock`unread
      ensures sock.Valid() && sock.Queue() == old(sock.Queue()) && lacks == (|sock.unread| < n)
    {
      var r := sock.Wait(n, 0);
      lacks := r == Some(true);
    }

    method ReadByte(sock: ReceiveBuffer) returns (b: nat)
      requires sock.Valid() && sock.unread != []
      modifies sock`rQi, sock`consumed, sock`unread
      ensures sock.Valid() && b == old(sock.unread)[0] && b < 256 && sock.unread == old(sock.unread)[1..]
    {
      BigEndian1(sock.unread[0]);
      assert sock.unread[..1] == [sock.unread[0]];
      b := sock.Shift(1);
    }

    method ReadLength(sock: ReceiveBuffer)
      requires sock.Valid() && |sock.unread| >= 3 && len == 0
      modifies `len, sock`rQi, sock`consumed, sock`unread
      ensures sock.Valid()
      ensures var c := CompactLength(old(sock.unread)); len == c.0 && sock.unread == old(sock.unread)[c.1..]
    {
      hide Low7;
      ghost var q := sock.unread;
      var b := ReadByte(sock);
      len := Low7(b);
      if b >= 128 {
        b := ReadByte(sock);
        len := len + Low7(b) * 128;
        if b >= 128 {
          b := ReadByte(sock);
          len := len + b * 16384;
          assert sock.unread == q[3..];
        }
      }
    }

    method ReadData(sock: ReceiveBuffer) returns (data: Option<seq<byte>>)
      requires sock.Valid()
      modifies `len, sock`rQi, sock`consumed, sock`unread
      ensures sock.Valid()
      ensures match FetchData(old(len), old(sock.unread))
              case Lacking(n, rest) => data == None && len == n && sock.unread == rest
              case Got(d, rest) => data == Some(d) && len == 0 && sock.unread == rest
    {
      if len == 0 {
        var short := Lacks(sock, 3);
        if short {
          return None;
        }
        ReadLength(sock);
      }
      hide CompactLength;
      var short := Lacks(sock, len);
      if short {
        return None;
      }
      var d := sock.ShiftBytes(len);
      len := 0;
      return Some(d);
    }

    /** Small data come as they are, others with their length in front. */
    method ReadSized(sock: ReceiveBuffer, size: nat) returns (data: Option<seq<byte>>)
      requires sock.Valid()
      modifies `len, sock`rQi, sock`consumed, sock`unread
      ensures sock.Valid()
      ensures match FetchSized(old(len), old(sock.unread), size)
              case Lacking(n, rest) => data == None && len == n && sock.unread == rest
              case Got(d, rest) => data == Some(d) && sock.unread == rest && len == if size < 12 then old(len) else 0
    {
      hide FetchData;
      if size < 12 {
        var short := Lacks(sock, size);
        if short {
          return None;
        }
        var d := sock.ShiftBytes(size);
        return Some(d);
      }
      data := ReadData(sock);
    }

    /** The pixels of a basic rectangle, whose filter and palette are known. */
    method ReadBody(sock: ReceiveBuffer, w: nat, h: nat) returns (outcome: Outcome)
      requires sock.Valid() && InBody(Now())
      modifies this, sock`rQi, sock`consumed, sock`unread
      ensures outcome == NeedsBytes ==> ctl == old(ctl)
      ensures sock.Valid() && Follows(TightCall(old(Now()), old(sock.unread), w, h), outcome, Now(), sock.unread, old(out), out)
    {
      ghost var m, q := Now(), sock.unread;
      BodyCall(m, q, w, h);
      hide TightCall, TightStep, CompactLength, RowSize, StreamOf;
      var size := if filter.value == 1 then RowSize(w, if numColors <= 2 then 1 else 8) * h else w * h * 3;
      assert size == BodySize(m, w, h);
      hide BodySize;
      var f := filter.value;
      hide FetchSized;
      if size != 0 {
        var data := ReadSized(sock, size);
        if data == None {
          return NeedsBytes;
        }
        out := out + [Basic(f, numColors, palette, StreamOf(ctl.value), size >= 12, data.value)];
        if f == 1 {
          numColors := 0;
        }
      }
      filter := None;
      ctl := None;
      return Complete;
    }

    /** The palette, unless an earlier call has read it; whether it is there. */
    method ReadPalette(sock: ReceiveBuffer) returns (ok: bool)
      requires sock.Valid()
      modifies `numColors, `palette, sock`rQi, sock`consumed, sock`unread
      ensures sock.Valid()
      ensures old(numColors) > 0 ==> ok && Now() == old(Now()) && sock.unread == old(sock.unread)
      ensures old(numColors) == 0 ==>
                var step := PaletteStep(old(Now()), old(sock.unread));
                if step.Wait? then !ok && Now() == old(Now()) && sock.unread == old(sock.unread)
                else ok && Now() == step.marks && step.taken <= |old(sock.unread)| && sock.unread == old(sock.unread)[step.taken..]
    {
      PaletteStepIs(Now(), sock.unread);
      hide PaletteStep, Overwrite;
      if numColors > 0 {
        return true;
      }
      var short := Lacks(sock, 1);
      if short {
        return false;
      }
      var peeked := sock.Peek8();
      var colors: nat := peeked;
      colors := colors + 1;
      short := Lacks(sock, 1 + colors * 3);
      if short {
        return false;
      }
      TakePalette(sock, colors);
      return true;
    }

    method TakePalette(sock: ReceiveBuffer, colors: nat)
      requires sock.Valid() && |sock.unread| >= 1 + colors * 3
      modifies `numColors, `palette, sock`rQi, sock`consumed, sock`unread
      ensures sock.Valid() && sock.unread == old(sock.unread)[1..][colors * 3..]
      ensures numColors == colors && palette == Overwrite(old(palette), old(sock.unread)[1..][..colors * 3])
    {
      hide Overwrite;
      numColors := colors;
      sock.SkipBytes(1);
      var read := sock.ShiftBytes(colors * 3);
      palette := Overwrite(palette, read);
    }

    method BasicRect(sock: ReceiveBuffer, w: nat, h: nat) returns (outcome: Outcome)
      requires sock.Valid() && ctl.Some? && ctl.value < 8
      modifies this, sock`rQi, sock`consumed, sock`unread
      ensures outcome == NeedsBytes ==> ctl == old(ctl)
      ensures sock.Valid() && Follows(TightCall(old(Now()), old(sock.unread), w, h), outcome, Now(), sock.unread, old(out), out)
    {
      FilterCall(Now(), sock.unread, w, h);
      hide TightCall, TightStep, PaletteStep, HasBit2;
      if filter == None {
        if HasBit2(ctl.value) {
          var short := Lacks(sock, 1);
          if short {
            return NeedsBytes;
          }
          var b := ReadByte(sock);
          filter := Some(b);
        } else {
          filter := Some(0);
        }
      }
      outcome := FilteredRect(sock, w, h);
    }

    method FilteredRect(sock: ReceiveBuffer, w: nat, h: nat) returns (outcome: Outcome)
      requires sock.Valid() && ctl.Some? && ctl.value < 8 && filter.Some?
      modifies this, sock`rQi, sock`consumed, sock`unread
      ensures outcome == NeedsBytes ==> ctl == old(ctl)
      ensures sock.Valid() && Follows(TightCall(old(Now()), old(sock.unread), w, h), outcome, Now(), sock.unread, old(out), out)
    {
      PaletteCall(Now(), sock.unread, w, h);
      hide TightCall, TightStep, PaletteStep;
      if filter.value > 2 {
        return Threw;
      }
      if filter.value == 1 {
        var ok := ReadPalette(sock);
        if !ok {
          return NeedsBytes;
        }
      }
      outcome := ReadBody(sock, w, h);
    }

    method DecodeRect(sock: ReceiveBuffer, w: nat, h: nat) returns (outcome: Outcome)
      requires sock.Valid() && (ctl.Some? ==> ctl.value < 16)
      modifies this, sock`rQi, sock`consumed, sock`unread
      ensures sock.Valid() && (outcome == NeedsBytes && ctl.Some? ==> ctl.value < 16)
      ensures Follows(TightCall(old(Now()), old(sock.unread), w, h), outcome, Now(), sock.unread, old(out), out)
    {
      ControlCall(Now(), sock.unread, w, h);
      hide TightCall, TightStep, Resets, Follows;
      ghost var m, q, before := Now(), sock.unread, out;
      if ctl == None {
        WaitFollows(m, q, out);
        var short := Lacks(sock, 1);
        if short {
          return NeedsBytes;
        }
        var b := ReadByte(sock);
        ResetStreams(b);
        ctl := Some(b / 16);
        m := Now();
        outcome := DecodeControlled(sock, w, h);
        FollowsAfter(Resets(b, 4), TightCall(m, q[1..], w, h), outcome, Now(), sock.unread, before, out);
        return;
      }
      outcome := DecodeControlled(sock, w, h);
    }

    method DecodeControlled(sock: ReceiveBuffer, w: nat, h: nat) returns (outcome: Outcome)
      requires sock.Valid() && ctl.Some? && ctl.value < 16
      modifies this, sock`rQi, sock`consumed, sock`unread
      ensures sock.Valid() && (outcome == NeedsBytes && ctl.Some? ==> ctl.value < 16)
      ensures Follows(TightCall(old(Now()), old(sock.unread), w, h), outcome, Now(), sock.unread, old(out), out)
    {
      OtherCall(Now(), sock.unread, w, h);
      Bit3OfNibble(ctl.value);
      hide HasBit3, TightCall, TightStep, FetchData;
      if ctl.value == 8 {
        var short := Lacks(sock, 3);
        if short {
          return NeedsBytes;
        }
        var pixel := sock.ShiftBytes(3);
        out := out + [Fill(pixel)];
      } else if ctl.value == 9 {
        var data := ReadData(sock);
        if data == None {
          return NeedsBytes;
        }
        out := out + [Jpeg(data.value)];
      } else if !HasBit3(ctl.value) {
        outcome := BasicRect(sock, w, h);
        return;
      } else {
        return Threw;
      }
      ctl := None;
      return Complete;
    }

    /** The four low bits of the control byte, from the lowest on. */
    method ResetStreams(b: byte)
      modifies `out
      ensures out == old(out) + Resets(b, 4)
    {
      for i := 0 to 4
        invariant out == old(out) + Resets(b, i)
      {
        if Shifted(b, i) % 2 == 1 {
          out := out + [Reset(i)];
        }
      }
    }
  }

  datatype Outcome = NeedsBytes | Complete | Threw

  ghost predicate Follows(c: Call, outcome: Outcome, now: Marks, rest: seq<byte>, before: seq<Out>, after: seq<Out>) {
    after == before + c.out &&
    match c
    case Waits(m, r, _) => outcome == NeedsBytes && now == m && rest == r
    case Ends(m, r, _) => outcome == Complete && now == m && rest == r
    case Throws(_) => outcome == Threw
  }

  ghost predicate InBody(m: Marks) {
    m.ctl.Some? && m.ctl.value < 8 && m.filter.Some? && m.filter.value <= 2 && (m.filter.value == 1 ==> m.numColors > 0)
  }

  /** A wait for data, with its length kept, or the data. */
  datatype Fetch = Lacking(len: nat, rest: seq<byte>) | Got(data: seq<byte>, rest: seq<byte>)

  function FetchAll(n: nat, q: seq<byte>): Fetch {
    if |q| < n then Lacking(n, q) else Got(q[..n], q[n..])
  }

  function FetchData(len: nat, q: seq<byte>): Fetch {
    if len > 0 then FetchAll(len, q)
    else if |q| < 3 then Lacking(0, q)
    else FetchAll(CompactLength(q).0, q[CompactLength(q).1..])
  }

  function FetchSized(len: nat, q: seq<byte>, size: nat): Fetch {
    if size >= 12 then FetchData(len, q)
    else if |q| < size then Lacking(len, q)
    else Got(q[..size], q[size..])
  }

  lemma BodyCall(m: Marks, q: seq<byte>, w: nat, h: nat)
    requires InBody(m)
    ensures var size, stream, f := BodySize(m, w, h), StreamOf(m.ctl.value), m.filter.value;
            TightCall(m, q, w, h) ==
              if size == 0 then Ends(m.(ctl := None, filter := None), q, []) else
              var fetch := FetchSized(m.len, q, size);
              if fetch.Lacking? then Waits(m.(len := fetch.len), fetch.rest, [])
              else Ends(Finished(m).(len := if size < 12 then m.len else 0), fetch.rest,
                        [Basic(f, m.numColors, m.palette, stream, size >= 12, fetch.data)])
  {
    assert !HasBit3(m.ctl.value);
    if BodySize(m, w, h) >= 12 && m.len == 0 && |q| >= 3 && CompactLength(q).0 > 0 {
      var m' := m.(len := CompactLength(q).0);
      assert BodySize(m', w, h) == BodySize(m, w, h);
      AfterNothing(TightCall(m', q[CompactLength(q).1..], w, h));
    }
    hide BodySize, StreamOf, CompactLength, Resets, PaletteStep, HasBit3;
  }

  lemma PaletteStepIs(m: Marks, q: seq<byte>)
    ensures PaletteStep(m, q) ==
              if |q| < 1 || |q| < 1 + (q[0] as nat + 1) * 3 then Wait else
              var n := (q[0] as nat + 1) * 3;
              Go(m.(numColors := q[0] as nat + 1, palette := Overwrite(m.palette, q[1..][..n])), 1 + n, [])
    ensures PaletteStep(m, q).Go? ==> var n := (q[0] as nat + 1) * 3; q[1 + n..] == q[1..][n..]
  {
    if |q| >= 1 && |q| >= 1 + (q[0] as nat + 1) * 3 {
      var n := (q[0] as nat + 1) * 3;
      assert q[1..1 + n] == q[1..][..n] && q[1 + n..] == q[1..][n..];
    }
  }

  lemma FilterCall(m: Marks, q: seq<byte>, w: nat, h: nat)
    requires m.ctl.Some? && m.ctl.value < 8
    ensures m.filter.None? ==>
              TightCall(m, q, w, h) ==
                if !HasBit2(m.ctl.value) then TightCall(m.(filter := Some(0)), q, w, h)
                else if q == [] then Waits(m, q, [])
                else TightCall(m.(filter := Some(q[0])), q[1..], w, h)
  {
    if m.filter.None? {
      AfterNothing(TightCall(m.(filter := Some(0)), q, w, h));
      assert q[0..] == q;
      if q != [] {
        AfterNothing(TightCall(m.(filter := Some(q[0])), q[1..], w, h));
      }
      hide BodyStep, DataStep, PaletteStep, Resets, HasBit2;
    }
  }

  lemma PaletteFound(m: Marks, q: seq<byte>)
    ensures var step := PaletteStep(m, q);
            || step.Wait?
            || (step.Go? && step.taken <= |q| && step.out == [] && step.marks.numColors > 0
                && step.marks.ctl == m.ctl && step.marks.filter == m.filter && step.marks.len == m.len)
  {
    hide Overwrite;
  }

  lemma PaletteCall(m: Marks, q: seq<byte>, w: nat, h: nat)
    requires m.ctl.Some? && m.ctl.value < 8 && m.filter.Some?
    ensures PaletteStep(m, q).Wait? || (PaletteStep(m, q).Go? && PaletteStep(m, q).taken <= |q|
              && InBody(PaletteStep(m, q).marks.(filter := Some(1))) && PaletteStep(m, q).marks.filter == m.filter)
    ensures m.filter.value > 2 ==> TightCall(m, q, w, h) == Throws([])
    ensures m.filter.value == 1 && m.numColors == 0 ==>
              TightCall(m, q, w, h) ==
                if PaletteStep(m, q).Wait? then Waits(m, q, [])
                else TightCall(PaletteStep(m, q).marks, q[PaletteStep(m, q).taken..], w, h)
  {
    hide BodyStep, DataStep, Resets, PaletteStep;
    PaletteFound(m, q);
    Bit3OfNibble(m.ctl.value);
    hide HasBit3;
    var step := PaletteStep(m, q);
    if step.Go? {
      AfterNothing(TightCall(step.marks, q[step.taken..], w, h));
    }
  }

  lemma ControlCall(m: Marks, q: seq<byte>, w: nat, h: nat)
    ensures m.ctl.None? ==>
              TightCall(m, q, w, h) ==
                if q == [] then Waits(m, q, [])
                else After(Resets(q[0], 4), TightCall(m.(ctl := Some(q[0] / 16)), q[1..], w, h))
  {
    hide BodyStep, DataStep, PaletteStep, Resets;
  }

  lemma Bit3OfNibble(ctl: nat)
    requires ctl < 16
    ensures HasBit3(ctl) <==> ctl >= 8
  {
  }

  lemma OtherCall(m: Marks, q: seq<byte>, w: nat, h: nat)
    requires m.ctl.Some? && m.ctl.value < 16
    ensures m.ctl.value == 8 ==>
              TightCall(m, q, w, h) == if |q| < 3 then Waits(m, q, []) else Ends(m.(ctl := None), q[3..], [Fill(q[..3])])
    ensures m.ctl.value == 9 ==>
              TightCall(m, q, w, h) ==
                var fetch := FetchData(m.len, q);
                if fetch.Lacking? then Waits(m.(len := fetch.len), fetch.rest, [])
                else Ends(m.(ctl := None, len := 0), fetch.rest, [Jpeg(fetch.data)])
    ensures m.ctl.value > 9 ==> TightCall(m, q, w, h) == Throws([])
  {
    Bit3OfNibble(m.ctl.value);
    hide BodyStep, BasicStep, Resets, HasBit3, CompactLength;
  }

  lemma WaitFollows(m: Marks, q: seq<byte>, out: seq<Out>)
    ensures Follows(Waits(m, q, []), NeedsBytes, m, q, out, out)
  {
  }

  lemma FollowsAfter(out: seq<Out>, c: Call, outcome: Outcome, now: Marks, rest: seq<byte>, before: seq<Out>, after: seq<Out>)
    requires Follows(c, outcome, now, rest, before + out, after)
    ensures Follows(After(out, c), outcome, now, rest, before, after)
  {
  }

  // Whose palette a rectangle is drawn with

  /** Between two rectangles only the palette and its marker are left. */
  predicate Between(m: Marks) {
    m.ctl.None? && m.filter.None? && m.len == 0
  }

  /** The bytes of a palette rectangle. */
  predicate PaletteRect(q: seq<byte>) {
    |q| >= 2 && q[0] / 16 < 8 && HasBit2(q[0] / 16) && q[1] == 1
  }

  /** Whatever is drawn is drawn with these colours. */
  ghost predicate DrawnWith(out: seq<Out>, numColors: nat, palette: seq<byte>) {
    forall o | o in out && o.Basic? :: o.numColors == numColors && o.palette == palette
  }

  lemma EmptyBody(m: Marks, w: nat, h: nat)
    requires m.filter == Some(1)
    ensures BodySize(m, w, h) == 0 <==> w == 0 || h == 0
  {
    var bpp := if m.numColors <= 2 then 1 else 8;
    if w == 0 {
      assert RowSize(w, bpp) == 0;
    } else {
      assert w * bpp >= 1;
      assert RowSize(w, bpp) >= 1;
      if h > 0 {
        assert RowSize(w, bpp) * h >= 1;
      }
    }
  }

  lemma BodyLeaves(m: Marks, q: seq<byte>, w: nat, h: nat)
    requires InBody(m) && m.len == 0
    ensures var c := TightCall(m, q, w, h);
            && DrawnWith(c.out, m.numColors, m.palette)
            && (c.Ends? ==> Between(c.marks)
                            && (c.marks.numColors > 0 <==> if m.filter == Some(1) then w == 0 || h == 0 else m.numColors > 0))
  {
    BodyCall(m, q, w, h);
    if m.filter == Some(1) {
      EmptyBody(m, w, h);
    }
    hide TightCall, BodySize, FetchSized, StreamOf;
  }

  lemma PaletteLeaves(m: Marks, q: seq<byte>, w: nat, h: nat)
    requires m.ctl.Some? && m.ctl.value < 8 && m.filter == Some(1) && m.len == 0
    ensures var c := TightCall(m, q, w, h);
            && (m.numColors > 0 ==> DrawnWith(c.out, m.numColors, m.palette))
            && (m.numColors == 0 && PaletteStep(m, q).Go? ==>
                  DrawnWith(c.out, PaletteStep(m, q).marks.numColors, PaletteStep(m, q).marks.palette))
            && (m.numColors == 0 && PaletteStep(m, q).Wait? ==> c.out == [])
            && (c.Ends? ==> Between(c.marks) && (c.marks.numColors > 0 <==> w == 0 || h == 0))
  {
    PaletteCall(m, q, w, h);
    if m.numColors > 0 {
      BodyLeaves(m, q, w, h);
    } else {
      var step := PaletteStep(m, q);
      if step.Go? {
        assert step.marks.len == 0;
        hide TightCall, PaletteStep;
        BodyLeaves(step.marks, q[step.taken..], w, h);
      }
    }
  }

  lemma BasicLeaves(m: Marks, q: seq<byte>, w: nat, h: nat)
    requires m.ctl.Some? && m.ctl.value < 8 && m.filter.None? && m.len == 0
    ensures var c := TightCall(m, q, w, h);
            c.Ends? ==>
              && Between(c.marks)
              && (c.marks.numColors > 0 <==>
                    if q != [] && HasBit2(m.ctl.value) && q[0] == 1 then w == 0 || h == 0 else m.numColors > 0)
  {
    FilterCall(m, q, w, h);
    hide TightCall, HasBit2, PaletteStep;
    if !HasBit2(m.ctl.value) {
      BodyLeaves(m.(filter := Some(0)), q, w, h);
    } else if q != [] {
      var n := m.(filter := Some(q[0]));
      PaletteCall(n, q[1..], w, h);
      if q[0] == 1 {
        PaletteLeaves(n, q[1..], w, h);
      } else if q[0] <= 2 {
        BodyLeaves(n, q[1..], w, h);
      }
    }
  }

  /** A palette's marker is meant to be clear between rectangles. It is set again
      by a palette rectangle exactly when that is empty, and then only another,
      non-empty, palette rectangle clears it. */
  lemma MarkerIsSetExactlyByEmptyRects(m: Marks, q: seq<byte>, w: nat, h: nat)
    requires Between(m)
    ensures var c := TightCall(m, q, w, h);
            c.Ends? ==>
              && Between(c.marks)
              && (c.marks.numColors > 0 <==> if PaletteRect(q) then w == 0 || h == 0 else m.numColors > 0)
  {
    ControlCall(m, q, w, h);
    if q != [] {
      var n := m.(ctl := Some(q[0] / 16));
      hide TightCall, HasBit2, Resets, FetchData;
      if n.ctl.value < 8 {
        BasicLeaves(n, q[1..], w, h);
      } else {
        OtherCall(n, q[1..], w, h);
      }
    }
  }

  /** With the marker clear, a palette rectangle is drawn with the colours that it
      carries; with the marker set, with those of an earlier one, whatever it
      carries. */
  lemma DrawsOwnPaletteWhenClear(m: Marks, q: seq<byte>, w: nat, h: nat)
    requires Between(m) && PaletteRect(q)
    ensures m.numColors > 0 ==> DrawnWith(TightCall(m, q, w, h).out, m.numColors, m.palette)
    ensures m.numColors == 0 ==>
              var out := TightCall(m, q, w, h).out;
              || (forall o | o in out :: o.Reset?)
              || (&& |q| >= 3
                  && var n := q[2] as nat + 1;
                  && |q| >= 3 + 3 * n
                  && DrawnWith(out, n, Overwrite(m.palette, q[3..3 + 3 * n])))
  {
    hide TightCall, Resets, PaletteStep, Overwrite;
    PaletteRectCall(m, q, w, h);
    ResetsOnly(q[0], 4);
    var n := Marks(Some(q[0] / 16), Some(1), m.numColors, m.palette, 0);
    PaletteLeaves(n, q[2..], w, h);
    if m.numColors == 0 {
      PaletteIn(n, q);
    }
  }

  /** The palette that stands behind the control and filter bytes. */
  lemma PaletteIn(m: Marks, q: seq<byte>)
    requires |q| >= 2
    ensures var step := PaletteStep(m, q[2..]);
            if |q| >= 3 && |q| >= 3 + 3 * (q[2] as nat + 1) then
              var n := q[2] as nat + 1;
              step.Go? && step.marks.numColors == n && step.marks.palette == Overwrite(m.palette, q[3..3 + 3 * n])
            else step.Wait?
  {
    hide Overwrite;
    PaletteStepIs(m, q[2..]);
    if |q| >= 3 && |q| >= 3 + 3 * (q[2] as nat + 1) {
      assert q[2..][1..][..3 * (q[2] as nat + 1)] == q[3..3 + 3 * (q[2] as nat + 1)];
    }
  }

  lemma PaletteRectCall(m: Marks, q: seq<byte>, w: nat, h: nat)
    requires Between(m) && PaletteRect(q)
    ensures TightCall(m, q, w, h)
            == After(Resets(q[0], 4), TightCall(Marks(Some(q[0] / 16), Some(1), m.numColors, m.palette, 0), q[2..], w, h))
  {
    ControlCall(m, q, w, h);
    FilterCall(m.(ctl := Some(q[0] / 16)), q[1..], w, h);
    hide TightCall, Resets;
    assert q[1..][1..] == q[2..];
  }

  lemma {:induction false} ResetsOnly(b: nat, n: nat)
    ensures forall o | o in Resets(b, n) :: o.Reset?
  {
    if n > 0 {
      ResetsOnly(b, n - 1);
    }
  }

  /** The bytes of an empty palette rectangle on stream 0. */
  function EmptyRect(colors: seq<byte>): seq<byte>
    requires 3 <= |colors| <= 768 && |colors| % 3 == 0
  {
    [0x40, 1, |colors| / 3 - 1] + colors
  }

  /** An empty palette rectangle leaves its palette behind, ... */
  lemma EmptyRectKeepsPalette(palette: seq<byte>, colors: seq<byte>, w: nat, h: nat)
    requires 3 <= |colors| <= 768 && |colors| % 3 == 0 && (w == 0 || h == 0)
    ensures TightCall(Marks(None, None, 0, palette, 0), EmptyRect(colors), w, h)
            == Ends(Marks(None, None, |colors| / 3, Overwrite(palette, colors), 0), [], [])
  {
    hide TightCall, Resets, EmptyRect, PaletteRect, Overwrite, HasBit2;
    var q := EmptyRect(colors);
    EmptyRectParts(colors);
    PaletteRectCall(Marks(None, None, 0, palette, 0), q, w, h);
    NoResets();
    EmptyRectBody(palette, colors, w, h);
    AfterNothing(TightCall(Marks(Some(4), Some(1), 0, palette, 0), q[2..], w, h));
  }

  lemma EmptyRectParts(colors: seq<byte>)
    requires 3 <= |colors| <= 768 && |colors| % 3 == 0
    ensures var q := EmptyRect(colors); PaletteRect(q) && q[0] == 0x40 && q[2..] == [|colors| / 3 - 1] + colors
  {
  }

  lemma EmptyRectBody(palette: seq<byte>, colors: seq<byte>, w: nat, h: nat)
    requires 3 <= |colors| <= 768 && |colors| % 3 == 0 && (w == 0 || h == 0)
    ensures TightCall(Marks(Some(4), Some(1), 0, palette, 0), [|colors| / 3 - 1] + colors, w, h)
            == Ends(Marks(None, None, |colors| / 3, Overwrite(palette, colors), 0), [], [])
  {
    var m := Marks(Some(4), Some(1), 0, palette, 0);
    var f := m.(numColors := |colors| / 3, palette := Overwrite(palette, colors));
    PaletteTaken(m, colors);
    PaletteCall(m, [|colors| / 3 - 1] + colors, w, h);
    EmptyBody(f, w, h);
    BodyCall(f, [], w, h);
    hide TightCall, PaletteStep, BodySize, Overwrite, FetchSized;
  }

  lemma PaletteTaken(m: Marks, colors: seq<byte>)
    requires 3 <= |colors| <= 768 && |colors| % 3 == 0
    ensures var s := [|colors| / 3 - 1] + colors;
            && PaletteStep(m, s) == Go(m.(numColors := |colors| / 3, palette := Overwrite(m.palette, colors)), 1 + |colors|, [])
            && s[1 + |colors|..] == []
  {
    var s := [|colors| / 3 - 1] + colors;
    assert s[1..1 + |colors|] == colors;
    hide Overwrite;
  }

  lemma NoResets()
    ensures Resets(0x40, 4) == []
  {
    assert Shifted(64, 1) == 32 && Shifted(64, 2) == 16 && Shifted(64, 3) == 8;
  }

  /** ... and the next palette rectangle is drawn with it. */
  lemma NextRectDrawsOldPalette(palette: seq<byte>, colors: seq<byte>, w: nat, h: nat, q: seq<byte>, w': nat, h': nat)
    requires 3 <= |colors| <= 768 && |colors| % 3 == 0 && (w == 0 || h == 0) && PaletteRect(q)
    ensures var first := TightCall(Marks(None, None, 0, palette, 0), EmptyRect(colors), w, h);
            first.Ends? && DrawnWith(TightCall(first.marks, q, w', h').out, |colors| / 3, Overwrite(palette, colors))
  {
    EmptyRectKeepsPalette(palette, colors, w, h);
    hide TightCall;
    DrawsOwnPaletteWhenClear(Marks(None, None, |colors| / 3, Overwrite(palette, colors), 0), q, w', h');
  }
}
