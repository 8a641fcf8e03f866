/** The proxy's view-only filter: it re-splits the client's byte stream into
    messages and drops the input messages of a viewer. */
module MessageFilter {
  import opened Bytes
  import opened ClientMessages

  const MAX_CLIPBOARD: int := 0x400_0000   // 64 MiB

  datatype FilterError =
    | EndOfInput                    // no byte where a read began
    | UnexpectedEnd                 // some, but too few, bytes
    | ClipboardTooLarge(n: int)
    | UnknownQemuMessage(b: byte)
    | UnknownMessage(t: byte)
    | NegativeLength(n: int)        // a run-time panic in the source

  datatype Result<+T> = Ok(value: T) | Err(error: FilterError)

  /** How a read of more than `available` bytes fails. */
  function ReadFailure(available: nat): FilterError {
    if available == 0 then EndOfInput else UnexpectedEnd
  }

  /** The body length the filter computes for type t, and the length of the
      prefix it reads to do so; s is the input after the type byte. */
  datatype BodySize = BodySize(size: int, prefix: nat)

  function Int32(n: int): int {
    var r := n % TWO_32;
    if r < TWO_31 then r else r - TWO_32
  }

  function CutTextSize(s: seq<byte>): Result<BodySize> {
    if |s| < 7 then Err(ReadFailure(|s|)) else
    var length := Int32(BigEndian(s[3..7]));
    var n := if length < 0 then Int32(-length) else length;
    if n > MAX_CLIPBOARD then Err(ClipboardTooLarge(n)) else Ok(BodySize(7 + n, 7))
  }

  function QemuSize(s: seq<byte>): Result<BodySize> {
    if |s| < 1 then Err(ReadFailure(|s|))
    else if s[0] == 0 then Ok(BodySize(1 + 10, 1))
    else if s[0] == 1 then
      if |s| < 3 then Err(ReadFailure(|s| - 1))
      else if BigEndian(s[1..3]) == 2 then Ok(BodySize(3 + 6, 3)) else Ok(BodySize(3, 3))
    else Err(UnknownQemuMessage(s[0]))
  }

  function EncodingsSize(s: seq<byte>): Result<BodySize> {
    if |s| < 3 then Err(ReadFailure(|s|)) else Ok(BodySize(3 + 4 * BigEndian(s[1..3]), 3))
  }

  function FenceSize(s: seq<byte>): Result<BodySize> {
    if |s| < 8 then Err(ReadFailure(|s|)) else Ok(BodySize(8 + s[7] as int, 8))
  }

  function DesktopSize(s: seq<byte>): Result<BodySize> {
    if |s| < 7 then Err(ReadFailure(|s|)) else Ok(BodySize(7 + 16 * s[5] as int, 7))
  }

  function MessageSize(t: byte, s: seq<byte>): Result<BodySize> {
    if t == 0 then Ok(BodySize(19, 0))
    else if t == 2 then EncodingsSize(s)
    else if t == 3 then Ok(BodySize(9, 0))
    else if t == 4 then Ok(BodySize(7, 0))
    else if t == 5 then Ok(BodySize(5, 0))
    else if t == 6 then CutTextSize(s)
    else if t == 150 then Ok(BodySize(9, 0))
    else if t == 151 then FenceSize(s)
    else if t == 250 then DesktopSize(s)
    else if t == 255 then QemuSize(s)
    else Err(UnknownMessage(t))
  }

  /** The length of the message at the front of s, type byte included. */
  function NextMessage(s: seq<byte>): (r: Result<nat>)
    ensures r.Ok? ==> 1 <= r.value <= |s|
  {
    if s == [] then Err(EndOfInput) else
    match MessageSize(s[0], s[1..])
    case Err(e) => Err(e)
    case Ok(BodySize(size, prefix)) =>
      if size < 0 then Err(NegativeLength(size))
      else if |s| - 1 < size then
        Err(ReadFailure(if prefix <= |s| - 1 then |s| - 1 - prefix else 0))
      else Ok(1 + size)
  }

  predicate IsInput(t: byte) {
    t == 4 || t == 5 || t == 6 || t == 250 || t == 255
  }

  /** The writes the filter makes, one a message, and the error that ends it. */
  datatype Outcome = Outcome(writes: seq<seq<byte>>, end: FilterError)

  function Forward(s: seq<byte>, viewOnly: bool): Outcome
    decreases |s|
  {
    match NextMessage(s)
    case Err(e) => Outcome([], e)
    case Ok(n) =>
      var rest := Forward(s[n..], viewOnly);
      if viewOnly && IsInput(s[0]) then rest else Outcome([s[..n]] + rest.writes, rest.end)
  }

  // Framing.

  /** The messages the filter frames as the browser client prints them. */
  predicate Framable(m: ClientMessage) {
    match m
    case PixelFormat(_, _) => true
    case ClientEncodings(encodings) => |encodings| < TWO_16
    case FbUpdateRequest(_, _, _, _, _) => true
    case KeyEvent(_, _) => true
    case PointerEvent(_, _, _) => true
    case ClientCutText(data, _) => |data| <= MAX_CLIPBOARD
    case EnableContinuousUpdates(_, _, _, _, _) => true
    case QemuExtendedKeyEvent(_, _, _) => true
    case ExtendedPointerEvent(_, _, _) => false
    case SetDesktopSize(_, _, _, _) => false
    case ClientFence(_, _) => false
    case XvpOp(_, _) => false
  }

  lemma EncodingsHeader(encodings: seq<int>, rest: seq<byte>)
    ensures var w := ClientEncodingsBytes(encodings);
            |w| == 4 + 4 * |encodings| && w[0] == 2 && (w + rest)[1..][1..3] == U16(|encodings|)
  {
    hide U16, U32;
    var w := ClientEncodingsBytes(encodings);
    assert w == (U8(2) + U8(0)) + U16(|encodings|) + EncodingList(encodings);
    assert w[2..4] == U16(|encodings|);
    assert (w + rest)[1..][1..3] == w[2..4];
  }

  lemma FrameEncodings(encodings: seq<int>, rest: seq<byte>)
    ensures var w := ClientEncodingsBytes(encodings);
            NextMessage(w + rest) == Ok(|w|) <==> |encodings| < TWO_16
  {
    var w := ClientEncodingsBytes(encodings);
    var n := |encodings|;
    EncodingsHeader(encodings, rest);
    BigEndianInverts(n);
    hide BigEndian, U16, U32;
    assert |w| == 4 + 4 * n;
    if n < TWO_16 {
      DivModUnique(n, TWO_16, 0, n);
    }
  }

  /** The clipboard length as the filter reads it back. */
  lemma CutTextLength(data: seq<byte>, extended: bool)
    ensures var length := Int32((if extended then -|data| else |data|) % TWO_32);
            var n := if length < 0 then Int32(-length) else length;
            n == |data| && n <= MAX_CLIPBOARD <==> |data| <= MAX_CLIPBOARD
  {
    var d := |data|;
    var sent := if extended then -d else d;
    var r := sent % TWO_32;
    DivModUnique(r, TWO_32, 0, r);
    var length := if r < TWO_31 then r else r - TWO_32;
    assert Int32(r) == length;
    if length < 0 {
      if length > -TWO_31 {
        DivModUnique(-length, TWO_32, 0, -length);
      } else {
        DivModUnique(TWO_31, TWO_32, 0, TWO_31);
      }
    }
    if d <= MAX_CLIPBOARD {
      if !extended || d == 0 {
        DivModUnique(sent, TWO_32, 0, d);
      } else {
        DivModUnique(sent, TWO_32, -1, TWO_32 - d);
      }
    }
  }

  lemma CutTextHeader(sent: int, data: seq<byte>, rest: seq<byte>)
    ensures ([] + U8(6) + U8(0) + U8(0) + U8(0) + U32(sent) + data + rest)[1..][3..7] == U32(sent)
  {
    var head := [] + U8(6) + U8(0) + U8(0) + U8(0);
    var s := head + U32(sent) + data + rest;
    assert s[4..8] == U32(sent);
    assert s[1..][3..7] == s[4..8];
  }

  lemma FrameCutText(data: seq<byte>, extended: bool, rest: seq<byte>)
    ensures var w := ClientCutTextBytes(data, extended);
            NextMessage(w + rest) == Ok(|w|) <==> |data| <= MAX_CLIPBOARD
  {
    var w := ClientCutTextBytes(data, extended);
    var s := (w + rest)[1..];
    var sent := if extended then -|data| else |data|;
    assert |w| == 8 + |data|;
    CutTextHeader(sent, data, rest);
    BigEndianInverts(sent);
    CutTextLength(data, extended);
  }

  lemma FrameFixed(m: ClientMessage, rest: seq<byte>)
    requires m.PixelFormat? || m.FbUpdateRequest? || m.KeyEvent? || m.PointerEvent?
             || m.EnableContinuousUpdates? || m.QemuExtendedKeyEvent?
    ensures NextMessage(Wire(m) + rest) == Ok(|Wire(m)|)
  {
    match m
    case PixelFormat(_, _) =>
    case FbUpdateRequest(_, _, _, _, _) =>
    case KeyEvent(_, _) =>
    case PointerEvent(_, _, _) =>
    case EnableContinuousUpdates(_, _, _, _, _) =>
    case QemuExtendedKeyEvent(_, _, _) =>
  }

  lemma FrameMismatched(m: ClientMessage, rest: seq<byte>)
    requires m.ExtendedPointerEvent? || m.SetDesktopSize? || m.ClientFence? || m.XvpOp?
    ensures NextMessage(Wire(m) + rest) != Ok(|Wire(m)|)
  {
    match m
    case ExtendedPointerEvent(_, _, _) =>
    case SetDesktopSize(_, _, _, _) =>
    case ClientFence(_, _) =>
    case XvpOp(_, _) =>
  }

  /** A message and whatever follows it: the filter cuts after exactly that
      message, if and only if the message is one of the framable ones. */
  lemma FilterFramesMessage(m: ClientMessage, rest: seq<byte>)
    ensures NextMessage(Wire(m) + rest) == Ok(|Wire(m)|) <==> Framable(m)
  {
    if m.ClientEncodings? {
      FrameEncodings(m.encodings, rest);
    } else if m.ClientCutText? {
      FrameCutText(m.data, m.extended, rest);
    } else if Framable(m) {
      FrameFixed(m, rest);
    } else {
      FrameMismatched(m, rest);
    }
  }

  predicate Starved(e: FilterError) {
    e == EndOfInput || e == UnexpectedEnd
  }

  lemma SizeIsStable(t: byte, s: seq<byte>, more: seq<byte>)
    requires MessageSize(t, s).Err? ==> !Starved(MessageSize(t, s).error)
    ensures MessageSize(t, s + more) == MessageSize(t, s)
  {
    var a := s + more;
    if |s| >= 3 {
      assert a[1..3] == s[1..3];
    }
    if |s| >= 7 {
      assert a[3..7] == s[3..7];
    }
  }

  /** A decision made on part of the stream stands when more arrives. */
  lemma NextMessageIsStable(s: seq<byte>, more: seq<byte>)
    requires NextMessage(s).Err? ==> !Starved(NextMessage(s).error)
    ensures NextMessage(s + more) == NextMessage(s)
  {
    assert (s + more)[1..] == s[1..] + more;
    SizeIsStable(s[0], s[1..], more);
  }

  /** A cut-off message is never delivered, not even in part. */
  lemma TruncatedTailIsSilent(m: ClientMessage, tail: seq<byte>, viewOnly: bool)
    requires Framable(m) && tail < Wire(m)
    ensures Forward(tail, viewOnly).writes == []
    ensures Starved(Forward(tail, viewOnly).end)
  {
    var more := Wire(m)[|tail|..];
    assert tail + more == Wire(m) + [];
    FilterFramesMessage(m, []);
    if NextMessage(tail).Err? ==> !Starved(NextMessage(tail).error) {
      NextMessageIsStable(tail, more);
      assert false;
    }
  }

  ghost predicate AllFramable(ms: seq<ClientMessage>) {
    forall i | 0 <= i < |ms| :: Framable(ms[i])
  }

  /** Keyboard, pointer and clipboard messages: what a viewer may not send. */
  predicate InputMessage(m: ClientMessage) {
    m.KeyEvent? || m.PointerEvent? || m.ClientCutText? || m.QemuExtendedKeyEvent?
  }

  lemma InputType(m: ClientMessage)
    requires Framable(m)
    ensures Wire(m) != [] && (IsInput(Wire(m)[0]) <==> InputMessage(m))
  {
    match m
    case PixelFormat(_, _) =>
    case ClientEncodings(_) =>
    case FbUpdateRequest(_, _, _, _, _) =>
    case KeyEvent(_, _) =>
    case PointerEvent(_, _, _) =>
    case ClientCutText(_, _) =>
    case EnableContinuousUpdates(_, _, _, _, _) =>
    case QemuExtendedKeyEvent(_, _, _) =>
  }

  /** What a connection is meant to let through, one write a message. */
  function Delivered(ms: seq<ClientMessage>, viewOnly: bool): seq<seq<byte>> {
    if ms == [] then [] else
    (if viewOnly && InputMessage(ms[0]) then [] else [Wire(ms[0])]) + Delivered(ms[1..], viewOnly)
  }

  /** Any sequence of framable messages, however it continues, is re-split into
      exactly those messages, of which a viewer's input messages are dropped. */
  lemma {:induction false} FilterResplits(ms: seq<ClientMessage>, tail: seq<byte>, viewOnly: bool)
    requires AllFramable(ms)
    ensures Forward(WireAll(ms) + tail, viewOnly)
            == Outcome(Delivered(ms, viewOnly) + Forward(tail, viewOnly).writes, Forward(tail, viewOnly).end)
  {
    if ms == [] {
      assert WireAll(ms) + tail == tail;
    } else {
      var w, rest := Wire(ms[0]), WireAll(ms[1..]) + tail;
      Reassociate(w, WireAll(ms[1..]), tail);
      FilterFramesMessage(ms[0], rest);
      InputType(ms[0]);
      ForwardStep(w, rest, viewOnly);
      FilterResplits(ms[1..], tail, viewOnly);
      var first := if viewOnly && InputMessage(ms[0]) then [] else [w];
      var later, last := Delivered(ms[1..], viewOnly), Forward(tail, viewOnly).writes;
      Reassociate(first, later, last);
    }
  }

  lemma Reassociate<T>(a: seq<T>, b: seq<T>, c: seq<T>)
    ensures a + b + c == a + (b + c)
  {
  }

  lemma ForwardStep(w: seq<byte>, rest: seq<byte>, viewOnly: bool)
    requires w != [] && NextMessage(w + rest) == Ok(|w|)
    ensures var first := if viewOnly && IsInput(w[0]) then [] else [w];
            Forward(w + rest, viewOnly)
            == Outcome(first + Forward(rest, viewOnly).writes, Forward(rest, viewOnly).end)
  {
    var s := w + rest;
    assert s[..|w|] == w && s[|w|..] == rest && s[0] == w[0];
  }

  /** In control mode every byte before the end is forwarded unchanged. */
  lemma {:induction false} ControlForwardsBytes(ms: seq<ClientMessage>)
    requires AllFramable(ms)
    ensures Concat(Forward(WireAll(ms), false).writes) == WireAll(ms)
    ensures Forward(WireAll(ms), false).end == EndOfInput
  {
    FilterResplits(ms, [], false);
    assert WireAll(ms) + [] == WireAll(ms);
    assert Delivered(ms, false) + [] == Delivered(ms, false);
    ConcatDelivered(ms);
  }

  lemma {:induction false} ConcatDelivered(ms: seq<ClientMessage>)
    ensures Concat(Delivered(ms, false)) == WireAll(ms)
  {
    if ms != [] {
      ConcatDelivered(ms[1..]);
      assert Delivered(ms, false)[1..] == Delivered(ms[1..], false);
    }
  }

  /** A viewer's bytes reach the server only as whole non-input messages, whatever
      the viewer sends: nothing but complete messages of the other types passes. */
  lemma {:induction false} ViewerCannotSendInput(s: seq<byte>)
    ensures forall w | w in Forward(s, true).writes :: NextMessage(w) == Ok(|w|) && !IsInput(w[0])
    decreases |s|
  {
    if NextMessage(s).Ok? {
      var n := NextMessage(s).value;
      ViewerCannotSendInput(s[n..]);
      MessageAlone(s);
    }
  }

  /** So the only types that a viewer's writes can have are those of pixel formats,
      encodings, update requests, continuous updates and fences. */
  lemma ViewerTypes(s: seq<byte>)
    ensures forall w | w in Forward(s, true).writes :: w != [] && w[0] in {0, 2, 3, 150, 151}
  {
    ViewerCannotSendInput(s);
    forall w | w in Forward(s, true).writes
      ensures w != [] && w[0] in {0, 2, 3, 150, 151}
    {
      assert NextMessage(w) == Ok(|w|);
    }
  }

  /** Messages that the browser client does not print in this way, but that the filter
      knows. */
  datatype Foreign =
    | Fence(flags: int, payload: seq<byte>)
    | Desktop(width: int, height: int, screens: seq<seq<byte>>)
    | Audio(operation: int)
    | AudioFormat(format: seq<byte>)

  ghost predicate ForeignFits(m: Foreign) {
    match m
    case Fence(_, payload) => |payload| < 256
    case Desktop(_, _, screens) => |screens| < 256 && forall i | 0 <= i < |screens| :: |screens[i]| == 16
    case Audio(operation) => 0 <= operation < TWO_16 && operation != 2
    case AudioFormat(format) => |format| == 6
  }

  ghost function ForeignWire(m: Foreign): (w: seq<byte>)
    requires ForeignFits(m)
    ensures w != []
  {
    match m
    case Fence(flags, payload) => [151, 0, 0, 0] + U32(flags) + [|payload|] + payload
    case Desktop(width, height, screens) => [250, 0] + U16(width) + U16(height) + [|screens|, 0] + Concat(screens)
    case Audio(operation) => [255, 1] + U16(operation)
    case AudioFormat(format) => [255, 1] + U16(2) + format
  }

  lemma {:induction false} ConcatLength(pieces: seq<seq<byte>>, n: nat)
    requires forall i | 0 <= i < |pieces| :: |pieces[i]| == n
    ensures |Concat(pieces)| == n * |pieces|
  {
    if pieces != [] {
      ConcatLength(pieces[1..], n);
      assert n * |pieces| == n + n * (|pieces| - 1);
    }
  }

  lemma AudioRead(operation: int, rest: seq<byte>)
    requires 0 <= operation < TWO_16
    ensures BigEndian(([255, 1] + U16(operation) + rest)[1..][1..3]) == operation
  {
    var q := [255, 1] + U16(operation) + rest;
    assert q[1..][1..3] == q[2..4] == U16(operation);
    BigEndianInverts(operation);
    DivModUnique(operation, TWO_16, 0, operation);
  }

  /** These are framed, too: fences pass, and the others are input. */
  lemma FilterFramesForeign(m: Foreign, rest: seq<byte>)
    requires ForeignFits(m)
    ensures NextMessage(ForeignWire(m) + rest) == Ok(|ForeignWire(m)|)
    ensures Forward(ForeignWire(m) + rest, true).writes
            == (if m.Fence? then [ForeignWire(m)] else []) + Forward(rest, true).writes
  {
    var q := ForeignWire(m) + rest;
    match m {
      case Fence(flags, payload) =>
        assert q[0] == 151 && q[1..][7] == |payload|;
      case Desktop(width, height, screens) =>
        ConcatLength(screens, 16);
        assert q[0] == 250 && q[1..][5] == |screens|;
      case Audio(operation) =>
        AudioRead(operation, rest);
      case AudioFormat(format) =>
        assert q == [255, 1] + U16(2) + (format + rest);
        AudioRead(2, format + rest);
    }
    assert NextMessage(q) == Ok(|ForeignWire(m)|);
    assert ForeignWire(m)[0] == if m.Fence? then 151 else if m.Desktop? then 250 else 255;
    hide NextMessage, U16, U32;
    ForwardStep(ForeignWire(m), rest, true);
  }

  lemma SizeFromPrefix(t: byte, s: seq<byte>, k: nat)
    requires k <= |s| && MessageSize(t, s).Ok? && MessageSize(t, s).value.prefix <= k
    ensures MessageSize(t, s[..k]) == MessageSize(t, s)
  {
    var a := s[..k];
    if k >= 3 {
      assert a[1..3] == s[1..3];
    }
    if k >= 7 {
      assert a[3..7] == s[3..7];
    }
  }

  lemma SliceOfTail(s: seq<byte>, n: nat)
    requires 1 <= n <= |s|
    ensures s[..n][1..] == s[1..][..n - 1]
  {
  }

  lemma MessageAlone(s: seq<byte>)
    requires NextMessage(s).Ok?
    ensures NextMessage(s[..NextMessage(s).value]) == NextMessage(s)
  {
    var n := NextMessage(s).value;
    var b := MessageSize(s[0], s[1..]).value;
    assert b.prefix <= b.size == n - 1;
    SliceOfTail(s, n);
    SizeFromPrefix(s[0], s[1..], n - 1);
    hide MessageSize;
    assert MessageSize(s[..n][0], s[..n][1..]) == Ok(b);
  }

  /** A clipboard length of 0x80000000 is its own negation: the size the filter
      then allocates is negative. */
  lemma CutTextNegationOverflows(s: seq<byte>)
    requires |s| >= 8 && s[..8] == [6, 0, 0, 0, 0x80, 0, 0, 0]
    ensures NextMessage(s) == Err(NegativeLength(7 - TWO_31))
  {
    var a := s[1..];
    assert a[3..7] == s[4..8] == s[..8][4..8] == [0x80, 0, 0, 0];
    BigEndian4(0x80, 0, 0, 0);
    DivModUnique(TWO_31, TWO_32, 0, TWO_31);
  }

  lemma CutTextNegates(s: seq<byte>)
    requires |s| >= 7
    ensures CutTextSize(s).Ok? && CutTextSize(s).value.size < 0 <==> s[3..7] == [0x80, 0, 0, 0]
  {
    var b := BigEndian(s[3..7]);
    assert s[3..7] == [s[3], s[4], s[5], s[6]];
    BigEndian4(s[3], s[4], s[5], s[6]);
    hide BigEndian;
    DivModUnique(b, TWO_32, 0, b);
    var length := if b < TWO_31 then b else b - TWO_32;
    assert Int32(b) == length;
    if length < 0 {
      DivModUnique(-length, TWO_32, 0, -length);
    }
  }

  /** The filter panics exactly on that length, whatever the padding before it. */
  lemma PanicsExactlyOnOverflow(s: seq<byte>)
    ensures (NextMessage(s).Err? && NextMessage(s).error.NegativeLength?)
            <==> (|s| >= 8 && s[0] == 6 && s[4..8] == [0x80, 0, 0, 0])
  {
    if |s| >= 8 && s[0] == 6 {
      assert s[1..][3..7] == s[4..8];
      CutTextNegates(s[1..]);
    }
  }

  // The loop itself.

  /** The client's side of the connection: reads consume its bytes. */
  class Source {
    var bytes: seq<byte>

    constructor (bytes: seq<byte>)
      ensures this.bytes == bytes
    {
      this.bytes := bytes;
    }

    /** All n bytes, or a failure that has consumed what there was. */
    method ReadFull(n: nat) returns (r: Result<seq<byte>>)
      modifies this
      ensures n <= |old(bytes)| ==> r == Ok(old(bytes)[..n]) && bytes == old(bytes)[n..]
      ensures n > |old(bytes)| ==> r == Err(ReadFailure(|old(bytes)|)) && bytes == []
    {
      if n <= |bytes| {
        r := Ok(bytes[..n]);
        bytes := bytes[n..];
      } else {
        r := Err(ReadFailure(|bytes|));
        bytes := [];
      }
    }
  }

  lemma PrefixFits(t: byte, s: seq<byte>)
    requires MessageSize(t, s).Ok?
    ensures var b := MessageSize(t, s).value; b.prefix <= |s| && (b.size >= 0 ==> b.prefix <= b.size)
  {
    if t == 6 {
      var length := Int32(BigEndian(s[3..7]));
      if length < 0 {
        NegatedInt32(length);
      }
    }
    hide BigEndian, Int32;
  }

  lemma NegatedInt32(n: int)
    requires -TWO_31 <= n < 0
    ensures Int32(-n) == if n == -TWO_31 then n else -n
  {
    DivModUnique(-n, TWO_32, 0, -n);
  }

  class CountingReader {
    const src: Source
    var prefix: seq<byte>

    constructor (src: Source)
      ensures this.src == src && prefix == []
    {
      this.src := src;
      prefix := [];
    }

    method Read(n: nat) returns (r: Result<seq<byte>>)
      modifies this, src
      ensures n <= |old(src.bytes)| ==> r == Ok(old(src.bytes)[..n]) && src.bytes == old(src.bytes)[n..]
      ensures n <= |old(src.bytes)| ==> prefix == old(prefix) + old(src.bytes)[..n]
      ensures n > |old(src.bytes)| ==> r == Err(ReadFailure(|old(src.bytes)|))
    {
      r := src.ReadFull(n);
      if r.Ok? {
        prefix := prefix + r.value;
      }
    }

    /** The body length; the prefix read on the way is kept for the caller. */
    method ClientMessageSize(t: byte) returns (r: Result<int>)
      requires prefix == []
      modifies this, src
      ensures match MessageSize(t, old(src.bytes))
              case Err(e) => r == Err(e)
              case Ok(b) => r == Ok(b.size) && b.prefix <= |old(src.bytes)| && (b.size >= 0 ==> b.prefix <= b.size)
                            && prefix == old(src.bytes)[..b.prefix] && src.bytes == old(src.bytes)[b.prefix..]
    {
      if MessageSize(t, src.bytes).Ok? {
        PrefixFits(t, src.bytes);
      }
      hide EncodingsSize, CutTextSize, FenceSize, DesktopSize, QemuSize;
      match t
      case 0 => r := Ok(19);
      case 2 => r := Encodings();
      case 3 => r := Ok(9);
      case 4 => r := Ok(7);
      case 5 => r := Ok(5);
      case 6 => r := CutText();
      case 150 => r := Ok(9);
      case 151 => r := Fence();
      case 250 => r := Desktop();
      case 255 => r := Qemu();
      case _ => r := Err(UnknownMessage(t));
    }

    method Encodings() returns (r: Result<int>)
      requires prefix == []
      modifies this, src
      ensures match EncodingsSize(old(src.bytes))
              case Err(e) => r == Err(e)
              case Ok(b) => r == Ok(b.size) && b.prefix == 3 <= |old(src.bytes)|
                            && prefix == old(src.bytes)[..3] && src.bytes == old(src.bytes)[3..]
    {
      ghost var s := src.bytes;
      var b := Read(3);
      if b.Err? { return Err(b.error); }
      assert b.value[1..3] == s[1..3];
      r := Ok(3 + 4 * BigEndian(b.value[1..3]));
    }

    method Fence() returns (r: Result<int>)
      requires prefix == []
      modifies this, src
      ensures match FenceSize(old(src.bytes))
              case Err(e) => r == Err(e)
              case Ok(b) => r == Ok(b.size) && b.prefix == 8 <= |old(src.bytes)|
                            && prefix == old(src.bytes)[..8] && src.bytes == old(src.bytes)[8..]
    {
      var b := Read(8);
      if b.Err? { return Err(b.error); }
      r := Ok(8 + b.value[7] as int);
    }

    method Desktop() returns (r: Result<int>)
      requires prefix == []
      modifies this, src
      ensures match DesktopSize(old(src.bytes))
              case Err(e) => r == Err(e)
              case Ok(b) => r == Ok(b.size) && b.prefix == 7 <= |old(src.bytes)|
                            && prefix == old(src.bytes)[..7] && src.bytes == old(src.bytes)[7..]
    {
      var b := Read(7);
      if b.Err? { return Err(b.error); }
      r := Ok(7 + 16 * b.value[5] as int);
    }

    method CutText() returns (r: Result<int>)
      requires prefix == []
      modifies this, src
      ensures match CutTextSize(old(src.bytes))
              case Err(e) => r == Err(e)
              case Ok(b) => r == Ok(b.size) && b.prefix == 7 <= |old(src.bytes)|
                            && prefix == old(src.bytes)[..7] && src.bytes == old(src.bytes)[7..]
    {
      var b := Read(7);
      if b.Err? { return Err(b.error); }
      assert b.value[3..7] == old(src.bytes)[3..7];
      var n := Int32(BigEndian(b.value[3..7]));
      if n < 0 {
        n := Int32(-n);
      }
      if n > MAX_CLIPBOARD {
        return Err(ClipboardTooLarge(n));
      }
      r := Ok(7 + n);
    }

    method Qemu() returns (r: Result<int>)
      requires prefix == []
      modifies this, src
      ensures match QemuSize(old(src.bytes))
              case Err(e) => r == Err(e)
              case Ok(b) => r == Ok(b.size) && b.prefix <= |old(src.bytes)|
                            && prefix == old(src.bytes)[..b.prefix] && src.bytes == old(src.bytes)[b.prefix..]
    {
      ghost var s := src.bytes;
      var b := Read(1);
      if b.Err? { return Err(b.error); }
      if b.value[0] == 0 {
        return Ok(1 + 10);
      }
      if b.value[0] == 1 {
        var sub := Read(2);
        if sub.Err? { return Err(sub.error); }
        assert sub.value == s[1..3] && prefix == s[..3] && src.bytes == s[3..];
        if BigEndian(sub.value) == 2 {
          return Ok(3 + 6);
        }
        return Ok(3);
      }
      return Err(UnknownQemuMessage(b.value[0]));
    }
  }

  /** The type byte, the prefix and the body of a message, put together again. */
  lemma MessageParts(s: seq<byte>, prefix: nat, size: nat)
    requires prefix <= size && prefix < |s|
    ensures s[1..][prefix..] == s[1 + prefix..]
    ensures size < |s| ==> [s[0]] + (s[1..][..prefix] + s[1 + prefix..][..size - prefix]) == s[..1 + size]
    ensures size < |s| ==> s[1 + prefix..][size - prefix..] == s[1 + size..]
  {
  }

  /** The body after the prefix already read, and the whole message s[..1 + size]. */
  method ReadBody(r: CountingReader, hdr: seq<byte>, size: nat, ghost s: seq<byte>) returns (m: Result<seq<byte>>)
    requires s != [] && hdr == [s[0]] && |r.prefix| <= size && |r.prefix| <= |s| - 1
    requires r.prefix == s[1..][..|r.prefix|] && r.src.bytes == s[1..][|r.prefix|..]
    modifies r, r.src
    ensures if |s| - 1 < size then m == Err(ReadFailure(|s| - 1 - |old(r.prefix)|))
            else m == Ok(s[..1 + size]) && r.src.bytes == s[1 + size..] && r.prefix == []
  {
    var prefix := r.prefix;
    MessageParts(s, |prefix|, size);
    var body := r.src.ReadFull(size - |prefix|);
    if body.Err? {
      return Err(body.error);
    }
    r.prefix := [];
    return Ok(hdr + (prefix + body.value));
  }

  /** One message, type byte and body, spliced together from the prefix. */
  method ReadMessage(r: CountingReader) returns (m: Result<seq<byte>>)
    requires r.prefix == []
    modifies r, r.src
    ensures match NextMessage(old(r.src.bytes))
            case Err(e) => m == Err(e)
            case Ok(n) => m == Ok(old(r.src.bytes)[..n]) && r.src.bytes == old(r.src.bytes)[n..] && r.prefix == []
  {
    hide MessageSize;
    ghost var s := r.src.bytes;
    var hdr := r.src.ReadFull(1);
    if hdr.Err? {
      return Err(hdr.error);
    }
    assert hdr.value == [s[0]] && r.src.bytes == s[1..];
    var size := r.ClientMessageSize(hdr.value[0]);
    if size.Err? {
      return Err(size.error);
    }
    if size.value < 0 {
      return Err(NegativeLength(size.value));
    }
    hide ReadFailure;
    m := ReadBody(r, hdr.value, size.value, s);
  }

  /** Everything after the ClientInit byte goes through the filter; that byte
      is forwarded as it is. */
  method CopyClientMessages(src: Source, viewOnly: bool) returns (writes: seq<seq<byte>>, end: FilterError)
    modifies src
    ensures old(src.bytes) == [] ==> writes == [] && end == EndOfInput
    ensures old(src.bytes) != [] ==>
              var o := Forward(old(src.bytes)[1..], viewOnly);
              writes == [old(src.bytes)[..1]] + o.writes && end == o.end
  {
    writes := [];
    ghost var input := src.bytes;
    var init := src.ReadFull(1);
    if init.Err? {
      return writes, init.error;
    }
    writes := [init.value];
    var r := new CountingReader(src);
    ghost var o := Forward(input[1..], viewOnly);
    while true
      invariant fresh(r) && r.src == src && r.prefix == []
      invariant writes + Forward(src.bytes, viewOnly).writes == [input[..1]] + o.writes
      invariant Forward(src.bytes, viewOnly).end == o.end
      decreases |src.bytes|
    {
      ghost var before := writes;
      var m := ReadMessage(r);
      if m.Err? {
        assert writes + [] == writes;
        return writes, m.error;
      }
      var t := m.value[0];
      if viewOnly && (t == 4 || t == 5 || t == 6 || t == 250 || t == 255) {
        continue;
      }
      writes := writes + [m.value];
      Reassociate(before, [m.value], Forward(src.bytes, viewOnly).writes);
    }
  }
}
