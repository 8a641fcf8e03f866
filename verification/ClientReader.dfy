/** A server's reader of client messages, written from section 7.5 of RFC 6143 and the
    extensions of its registry: it reads back what the client meant. */
module ClientReader {
  import opened Bytes
  import opened ClientMessages

  datatype Area = Area(x: nat, y: nat, w: nat, h: nat)

  datatype Screen = Screen(id: nat, area: Area, flags: nat)

  datatype Meant =
    | Format(bitsPerPixel: nat, depth: nat, bigEndian: bool, trueColor: bool,
             redMax: nat, greenMax: nat, blueMax: nat, redShift: nat, greenShift: nat, blueShift: nat)
    | Encodings(encodings: seq<int>)
    | Request(incremental: bool, area: Area)
    | Key(down: bool, keysym: nat)
    | Pointer(x: nat, y: nat, buttons: nat)
    | Text(data: seq<byte>)
    | Clipboard(data: seq<byte>)       // the extended form
    | Continuous(on: bool, area: Area)
    | RawKey(down: bool, keysym: nat, keycode: nat)
    | Desktop(width: nat, height: nat, screens: seq<Screen>)
    | Fence(flags: nat, payload: seq<byte>)
    | Power(version: nat, operation: nat)

  // Fields

  function Word(q: seq<byte>, i: nat): nat
    requires i + 2 <= |q|
  {
    BigEndian(q[i..i + 2])
  }

  function Long(q: seq<byte>, i: nat): nat
    requires i + 4 <= |q|
  {
    BigEndian(q[i..i + 4])
  }

  function Signed(n: nat): int {
    if n < TWO_31 then n else n - TWO_32
  }

  function AreaAt(q: seq<byte>, i: nat): Area
    requires i + 8 <= |q|
  {
    Area(Word(q, i), Word(q, i + 2), Word(q, i + 4), Word(q, i + 6))
  }

  function EncodingsAt(q: seq<byte>, i: nat, n: nat): seq<int>
    requires i + 4 * n <= |q|
    decreases n
  {
    if n == 0 then [] else EncodingsAt(q, i, n - 1) + [Signed(Long(q, i + 4 * (n - 1)))]
  }

  function ScreenAt(q: seq<byte>, i: nat): Screen
    requires i + 16 <= |q|
  {
    Screen(Long(q, i), AreaAt(q, i + 4), Long(q, i + 12))
  }

  function ReadFormat(q: seq<byte>): Option<(Meant, nat)> {
    if |q| < 20 then None else
    Some((Format(q[4], q[5], q[6] != 0, q[7] != 0, Word(q, 8), Word(q, 10), Word(q, 12), q[14], q[15], q[16]), 20))
  }

  function ReadEncodings(q: seq<byte>): Option<(Meant, nat)> {
    if |q| < 4 || |q| < 4 + 4 * Word(q, 2) then None else
    Some((Encodings(EncodingsAt(q, 4, Word(q, 2))), 4 + 4 * Word(q, 2)))
  }

  /** The pointer message is longer when the high bit of its buttons is set. */
  function ReadPointer(q: seq<byte>): Option<(Meant, nat)> {
    if |q| >= 6 && q[1] < 128 then Some((Pointer(Word(q, 2), Word(q, 4), q[1]), 6))
    else if |q| >= 7 && q[1] >= 128 then Some((Pointer(Word(q, 2), Word(q, 4), q[1] as int - 128 + 128 * q[6] as int), 7))
    else None
  }

  /** A negative length means the extended form. */
  function ReadText(q: seq<byte>): Option<(Meant, nat)> {
    if |q| < 8 then None else
    var n := Signed(Long(q, 4));
    if n >= 0 && |q| >= 8 + n then Some((Text(q[8..8 + n]), 8 + n))
    else if n < 0 && |q| >= 8 - n then Some((Clipboard(q[8..8 - n]), 8 - n))
    else None
  }

  function ReadFence(q: seq<byte>): Option<(Meant, nat)> {
    if |q| < 9 || |q| < 9 + q[8] as int then None else
    Some((Fence(Long(q, 4), q[9..9 + q[8] as int]), 9 + q[8] as int))
  }

  function ReadDesktop(q: seq<byte>): Option<(Meant, nat)> {
    if |q| < 24 || q[6] != 1 then None else Some((Desktop(Word(q, 2), Word(q, 4), [ScreenAt(q, 8)]), 24))
  }

  function ReadRawKey(q: seq<byte>): Option<(Meant, nat)> {
    if |q| < 12 || q[1] != 0 then None else Some((RawKey(Word(q, 2) != 0, Long(q, 4), Long(q, 8)), 12))
  }

  /** The message at the front of a stream, and its length. */
  function Read(q: seq<byte>): Option<(Meant, nat)> {
    if q == [] then None
    else if q[0] == 0 then ReadFormat(q)
    else if q[0] == 2 then ReadEncodings(q)
    else if q[0] == 3 then if |q| < 10 then None else Some((Request(q[1] != 0, AreaAt(q, 2)), 10))
    else if q[0] == 4 then if |q| < 8 then None else Some((Key(q[1] != 0, Long(q, 4)), 8))
    else if q[0] == 5 then ReadPointer(q)
    else if q[0] == 6 then ReadText(q)
    else if q[0] == 150 then if |q| < 10 then None else Some((Continuous(q[1] != 0, AreaAt(q, 2)), 10))
    else if q[0] == 248 then ReadFence(q)
    else if q[0] == 250 then if |q| < 4 then None else Some((Power(q[2], q[3]), 4))
    else if q[0] == 251 then ReadDesktop(q)
    else if q[0] == 255 then ReadRawKey(q)
    else None
  }

  predicate Is16(n: int) {
    0 <= n < TWO_16
  }

  predicate Is32(n: int) {
    0 <= n < TWO_32
  }

  /** The fields fit the places they are printed into. */
  ghost predicate InRange(m: ClientMessage) {
    match m
    case PixelFormat(depth, _) => depth < 48
    case ClientEncodings(encodings) => |encodings| < TWO_16 && forall i | 0 <= i < |encodings| :: -TWO_31 <= encodings[i] < TWO_31
    case FbUpdateRequest(_, x, y, w, h) => Is16(x) && Is16(y) && Is16(w) && Is16(h)
    case KeyEvent(keysym, _) => Is32(keysym)
    case PointerEvent(x, y, mask) => Is16(x) && Is16(y) && 0 <= mask < 128
    case ClientCutText(data, extended) => |data| < TWO_31
    case EnableContinuousUpdates(_, x, y, w, h) => Is16(x) && Is16(y) && Is16(w) && Is16(h)
    case QemuExtendedKeyEvent(keysym, _, keycode) => Is32(keysym) && Is32(keycode)
    case ExtendedPointerEvent(x, y, mask) => Is16(x) && Is16(y) && 0 <= mask < 512
    case SetDesktopSize(width, height, id, flags) => Is16(width) && Is16(height) && Is32(id) && Is32(flags)
    case ClientFence(flags, payload) => Is32(flags) && |payload| < 256
    case XvpOp(ver, op) => 0 <= ver < 256 && 0 <= op < 256
  }

  /** The scan code of a key: those with the prefix 0xe0 have the high bit set instead. */
  function ScanCode(keycode: int): int {
    if 0xe000 <= keycode < 0xe07f then keycode - 0xe000 + 0x80 else keycode
  }

  /** What the client means by a message. Colours of depth d have d / 3 bits a channel,
      red lowest. */
  ghost function Meaning(m: ClientMessage): Meant
    requires InRange(m)
  {
    match m
    case PixelFormat(depth, trueColor) =>
      var bits := depth / 3;
      Format(if depth > 16 then 32 else if depth > 8 then 16 else 8, depth, false, trueColor,
             Pow2(bits) - 1, Pow2(bits) - 1, Pow2(bits) - 1, 0, bits, 2 * bits)
    case ClientEncodings(encodings) => Encodings(encodings)
    case FbUpdateRequest(incremental, x, y, w, h) => Request(incremental, Area(x, y, w, h))
    case KeyEvent(keysym, down) => Key(down, keysym)
    case PointerEvent(x, y, mask) => Pointer(x, y, mask)
    case ClientCutText(data, extended) => if extended && data != [] then Clipboard(data) else Text(data)
    case EnableContinuousUpdates(enable, x, y, w, h) => Continuous(enable, Area(x, y, w, h))
    case QemuExtendedKeyEvent(keysym, down, keycode) => RawKey(down, keysym, ScanCode(keycode))
    case ExtendedPointerEvent(x, y, mask) => Pointer(x, y, mask)
    case SetDesktopSize(width, height, id, flags) =>
      Desktop(width, height, [Screen(id, Area(0, 0, width, height), flags)])
    case ClientFence(flags, payload) => Fence(flags, payload)
    case XvpOp(ver, op) => Power(ver, op)
  }

  // Reading fields

  lemma WordIs(q: seq<byte>, i: nat, n: int)
    requires i + 2 <= |q| && q[i..i + 2] == U16(n) && Is16(n)
    ensures Word(q, i) == n
  {
    BigEndianInverts(n);
    DivModUnique(n, TWO_16, 0, n);
  }

  lemma LongIs(q: seq<byte>, i: nat, n: int)
    requires i + 4 <= |q| && q[i..i + 4] == U32(n) && -TWO_31 <= n < TWO_32
    ensures Long(q, i) == if n < 0 then n + TWO_32 else n
  {
    BigEndianInverts(n);
    DivModUnique(n, TWO_32, if n < 0 then -1 else 0, if n < 0 then n + TWO_32 else n);
  }

  /** A field of a part is a field of the whole. */
  lemma Within(q: seq<byte>, part: seq<byte>, i: nat, a: nat, b: nat)
    requires i + |part| <= |q| && q[i..i + |part|] == part && a <= b <= |part|
    ensures q[i + a..i + b] == part[a..b]
  {
    var s := q[i..i + |part|];
    forall k | 0 <= k < b - a
      ensures q[i + a..i + b][k] == s[a..b][k]
    {
      assert s[a..b][k] == s[a + k] == q[i + (a + k)];
    }
  }

  lemma FourParts(a: seq<byte>, b: seq<byte>, c: seq<byte>, d: seq<byte>)
    requires |a| == 2 && |b| == 2 && |c| == 2 && |d| == 2
    ensures (a + b + c + d)[0..2] == a && (a + b + c + d)[2..4] == b
    ensures (a + b + c + d)[4..6] == c && (a + b + c + d)[6..8] == d
  {
  }

  lemma AreaIs(q: seq<byte>, i: nat, x: int, y: int, w: int, h: int)
    requires i + 8 <= |q| && q[i..i + 8] == U16(x) + U16(y) + U16(w) + U16(h)
    requires Is16(x) && Is16(y) && Is16(w) && Is16(h)
    ensures AreaAt(q, i) == Area(x, y, w, h)
  {
    hide U16, Word, Is16;
    var s := U16(x) + U16(y) + U16(w) + U16(h);
    FourParts(U16(x), U16(y), U16(w), U16(h));
    Within(q, s, i, 0, 2);
    Within(q, s, i, 2, 4);
    Within(q, s, i, 4, 6);
    Within(q, s, i, 6, 8);
    WordIs(q, i, x);
    WordIs(q, i + 2, y);
    WordIs(q, i + 4, w);
    WordIs(q, i + 6, h);
  }

  // Each message

  lemma RequestRead(m: ClientMessage, rest: seq<byte>)
    requires (m.FbUpdateRequest? || m.EnableContinuousUpdates?) && InRange(m)
    ensures Read(Wire(m) + rest) == Some((Meaning(m), |Wire(m)|))
  {
    hide U16, AreaAt;
    var q := Wire(m) + rest;
    assert q[2..10] == U16(m.x) + U16(m.y) + U16(m.w) + U16(m.h);
    AreaIs(q, 2, m.x, m.y, m.w, m.h);
  }

  lemma KeyRead(m: ClientMessage, rest: seq<byte>)
    requires (m.KeyEvent? || m.QemuExtendedKeyEvent?) && InRange(m)
    ensures Read(Wire(m) + rest) == Some((Meaning(m), |Wire(m)|))
  {
    hide U32, U16, Word, Long;
    var q := Wire(m) + rest;
    assert q[4..8] == U32(m.keysym);
    LongIs(q, 4, m.keysym);
    if m.QemuExtendedKeyEvent? {
      assert q[2..4] == U16(Bit(m.down)) && q[8..12] == U32(RfbKeycode(m.keycode));
      KeycodeIs(m.keycode);
      WordIs(q, 2, Bit(m.down));
      LongIs(q, 8, RfbKeycode(m.keycode));
    }
  }

  lemma KeycodeIs(keycode: int)
    requires Is32(keycode)
    ensures RfbKeycode(keycode) == ScanCode(keycode) && Is32(ScanCode(keycode))
  {
    if 0xe000 <= keycode < 0xe07f {
      DivModUnique(keycode, TWO_8, 0xe0, keycode - 0xe000);
    }
  }

  /** The type decides how the rest is read. */
  lemma TypeFirst(q: seq<byte>)
    requires q != []
    ensures q[0] == 0 ==> Read(q) == ReadFormat(q)
    ensures q[0] == 5 ==> Read(q) == ReadPointer(q)
  {
  }

  lemma PointerRead(m: ClientMessage, rest: seq<byte>)
    requires (m.PointerEvent? || m.ExtendedPointerEvent?) && InRange(m)
    ensures Read(Wire(m) + rest) == Some((Meaning(m), |Wire(m)|))
  {
    hide U16, Word;
    var q := Wire(m) + rest;
    assert q[2..4] == U16(m.x) && q[4..6] == U16(m.y);
    assert q[0] == 5;
    TypeFirst(q);
    hide Read;
    WordIs(q, 2, m.x);
    WordIs(q, 4, m.y);
  }

  lemma TextRead(data: seq<byte>, extended: bool, rest: seq<byte>)
    requires |data| < TWO_31
    ensures var m := ClientCutText(data, extended);
            Read(Wire(m) + rest) == Some((Meaning(m), |Wire(m)|))
  {
    hide U32, Long;
    var sent, q := if extended then -|data| else |data|, Wire(ClientCutText(data, extended)) + rest;
    assert q[4..8] == U32(sent) && q[8..8 + |data|] == data;
    LongIs(q, 4, sent);
  }

  lemma FenceRead(m: ClientMessage, rest: seq<byte>)
    requires (m.ClientFence? || m.XvpOp?) && InRange(m)
    ensures Read(Wire(m) + rest) == Some((Meaning(m), |Wire(m)|))
  {
    hide U32, Long;
    var q := Wire(m) + rest;
    if m.ClientFence? {
      assert q[4..8] == U32(m.flags) && q[9..9 + |m.payload|] == m.payload;
      LongIs(q, 4, m.flags);
    }
  }

  lemma DesktopParts(width: int, height: int, id: int, flags: int)
    ensures var h, s := DesktopHeaderBytes(width, height), ScreenBytes(width, height, id, flags);
            && |h| == 8 && h[0] == 251 && h[2..4] == U16(width) && h[4..6] == U16(height) && h[6] == 1
            && |s| == 16 && s[0..4] == U32(id) && s[4..12] == U16(0) + U16(0) + U16(width) + U16(height) && s[12..16] == U32(flags)
  {
    hide U16, U32;
  }

  lemma DesktopRead(width: int, height: int, id: int, flags: int, rest: seq<byte>)
    requires InRange(SetDesktopSize(width, height, id, flags))
    ensures var m := SetDesktopSize(width, height, id, flags);
            Read(Wire(m) + rest) == Some((Meaning(m), |Wire(m)|))
  {
    var h, s := DesktopHeaderBytes(width, height), ScreenBytes(width, height, id, flags);
    DesktopParts(width, height, id, flags);
    hide U16, U32, Word, Long, AreaAt, DesktopHeaderBytes, ScreenBytes;
    var q := Wire(SetDesktopSize(width, height, id, flags)) + rest;
    assert q[0..8] == h && q[8..24] == s;
    Within(q, h, 0, 2, 4);
    Within(q, h, 0, 4, 6);
    Within(q, s, 8, 0, 4);
    Within(q, s, 8, 4, 12);
    Within(q, s, 8, 12, 16);
    assert q[0] == h[0] && q[6] == h[6];
    WordIs(q, 2, width);
    WordIs(q, 4, height);
    LongIs(q, 8, id);
    LongIs(q, 20, flags);
    AreaIs(q, 12, 0, 0, width, height);
  }

  lemma {:induction false} Pow2Bound(n: nat)
    requires n < 16
    ensures Pow2(n) <= 32768
    decreases 16 - n
  {
    if n < 15 {
      Pow2Bound(n + 1);
    } else {
      Pow2Of15();
    }
  }

  lemma Pow2Of15()
    ensures Pow2(15) == 32768
  {
    assert Pow2(5) == 32 && Pow2(10) == 1024;
  }

  lemma FormatParts(depth: nat, trueColor: bool, bits: nat)
    requires depth < 48 && bits < 16
    ensures var h := PixelHeaderBytes(depth, trueColor);
            && |h| == 8 && h[0] == 0 && h[4] == (if depth > 16 then 32 else if depth > 8 then 16 else 8)
            && h[5] == depth && h[6] == 0 && h[7] == Bit(trueColor)
    ensures var c := PixelMaximaBytes(bits);
            |c| == 6 && c[0..2] == U16(Pow2(bits) - 1) && c[2..4] == U16(Pow2(bits) - 1) && c[4..6] == U16(Pow2(bits) - 1)
    ensures var s := PixelShiftsBytes(bits);
            |s| == 6 && s[0] == 0 && s[1] == bits && s[2] == 2 * bits
  {
    hide U16, Pow2;
    assert bits % 32 == bits;
  }

  lemma FormatRead(depth: nat, trueColor: bool, rest: seq<byte>)
    requires InRange(PixelFormat(depth, trueColor))
    ensures var m := PixelFormat(depth, trueColor);
            Read(Wire(m) + rest) == Some((Meaning(m), |Wire(m)|))
  {
    hide U16, Read, Pow2, Bit, Is16, PixelHeaderBytes, PixelMaximaBytes, PixelShiftsBytes;
    var bits := depth / 3;
    var h, c, s := PixelHeaderBytes(depth, trueColor), PixelMaximaBytes(bits), PixelShiftsBytes(bits);
    FormatParts(depth, trueColor, bits);
    MaximumFits(bits);
    FormatFields(h, c, s, rest);
    FormatIsRead(Wire(PixelFormat(depth, trueColor)) + rest, trueColor, Pow2(bits) - 1);
  }

  lemma MaximumFits(bits: nat)
    requires bits < 16
    ensures Is16(Pow2(bits) - 1)
  {
    Pow2Bound(bits);
  }

  lemma FormatIsRead(q: seq<byte>, trueColor: bool, max: nat)
    requires |q| >= 20 && q[0] == 0 && q[6] == 0 && q[7] == Bit(trueColor) && Is16(max)
    requires q[8..10] == U16(max) && q[10..12] == U16(max) && q[12..14] == U16(max)
    ensures Read(q) == Some((Format(q[4], q[5], false, trueColor, max, max, max, q[14], q[15], q[16]), 20))
  {
    hide U16, Word;
    WordIs(q, 8, max);
    WordIs(q, 10, max);
    WordIs(q, 12, max);
  }

  lemma FormatFields(h: seq<byte>, c: seq<byte>, s: seq<byte>, rest: seq<byte>)
    requires |h| == 8 && |c| == 6 && |s| == 6
    ensures var q := h + c + s + rest;
            && (forall i | 0 <= i < 8 :: q[i] == h[i]) && q[14] == s[0] && q[15] == s[1] && q[16] == s[2]
            && q[8..10] == c[0..2] && q[10..12] == c[2..4] && q[12..14] == c[4..6]
  {
  }

  lemma {:induction false} ListRead(encodings: seq<int>, n: nat, q: seq<byte>)
    requires n <= |encodings| && |q| >= 4 + 4 * |encodings| && q[4..4 + 4 * |encodings|] == EncodingList(encodings)
    requires forall i | 0 <= i < |encodings| :: -TWO_31 <= encodings[i] < TWO_31
    ensures EncodingsAt(q, 4, n) == encodings[..n]
  {
    if n > 0 {
      ListRead(encodings, n - 1, q);
      EncodingAt(encodings, n - 1);
      assert EncodingsAt(q, 4, n) == EncodingsAt(q, 4, n - 1) + [Signed(Long(q, 4 + 4 * (n - 1)))];
      hide U32, Long, EncodingList, EncodingsAt;
      var i := 4 * (n - 1);
      Within(q, EncodingList(encodings), 4, i, i + 4);
      LongIs(q, 4 + i, encodings[n - 1]);
      assert encodings[..n] == encodings[..n - 1] + [encodings[n - 1]];
    }
  }

  lemma {:induction false} EncodingAt(encodings: seq<int>, k: nat)
    requires k < |encodings|
    ensures EncodingList(encodings)[4 * k..4 * k + 4] == U32(encodings[k])
    decreases |encodings|
  {
    hide U32;
    if k < |encodings| - 1 {
      var before := encodings[..|encodings| - 1];
      EncodingAt(before, k);
      assert EncodingList(encodings)[4 * k..4 * k + 4] == EncodingList(before)[4 * k..4 * k + 4];
    }
  }

  lemma EncodingsRead(encodings: seq<int>, rest: seq<byte>)
    requires InRange(ClientEncodings(encodings))
    ensures var m := ClientEncodings(encodings);
            Read(Wire(m) + rest) == Some((Meaning(m), |Wire(m)|))
  {
    hide U16, EncodingList, EncodingsAt, Word;
    var q := Wire(ClientEncodings(encodings)) + rest;
    assert q[2..4] == U16(|encodings|) && q[4..4 + 4 * |encodings|] == EncodingList(encodings);
    WordIs(q, 2, |encodings|);
    ListRead(encodings, |encodings|, q);
    assert encodings[..|encodings|] == encodings;
  }

  /** Every message whose fields fit is read back as what it means, and exactly its bytes
      are taken, whatever follows. */
  lemma MessageRead(m: ClientMessage, rest: seq<byte>)
    requires InRange(m)
    ensures Read(Wire(m) + rest) == Some((Meaning(m), |Wire(m)|))
  {
    hide Wire, Read, Meaning;
    match m
    case PixelFormat(depth, trueColor) => FormatRead(depth, trueColor, rest);
    case ClientEncodings(encodings) => EncodingsRead(encodings, rest);
    case FbUpdateRequest(_, _, _, _, _) => RequestRead(m, rest);
    case KeyEvent(_, _) => KeyRead(m, rest);
    case PointerEvent(_, _, _) => PointerRead(m, rest);
    case ClientCutText(data, extended) => TextRead(data, extended, rest);
    case EnableContinuousUpdates(_, _, _, _, _) => RequestRead(m, rest);
    case QemuExtendedKeyEvent(_, _, _) => KeyRead(m, rest);
    case ExtendedPointerEvent(_, _, _) => PointerRead(m, rest);
    case SetDesktopSize(width, height, id, flags) => DesktopRead(width, height, id, flags, rest);
    case ClientFence(_, _) => FenceRead(m, rest);
    case XvpOp(_, _) => FenceRead(m, rest);
  }

  /** What the server understands of a stream. */
  function ReadAll(q: seq<byte>): seq<Meant>
    decreases |q|
  {
    match Read(q)
    case None => []
    case Some((meant, n)) => if 0 < n <= |q| then [meant] + ReadAll(q[n..]) else [meant]
  }

  ghost function Meanings(ms: seq<ClientMessage>): seq<Meant>
    requires forall i | 0 <= i < |ms| :: InRange(ms[i])
  {
    if ms == [] then [] else [Meaning(ms[0])] + Meanings(ms[1..])
  }

  lemma NotEmpty(m: ClientMessage)
    ensures |Wire(m)| > 0
  {
  }

  /** Any sequence of messages is understood as it was meant. */
  lemma {:induction false} StreamRead(ms: seq<ClientMessage>)
    requires forall i | 0 <= i < |ms| :: InRange(ms[i])
    ensures ReadAll(WireAll(ms)) == Meanings(ms)
  {
    hide Wire, Read, Meaning, InRange;
    if ms == [] {
      NothingRead();
    } else {
      var later := WireAll(ms[1..]);
      MessageRead(ms[0], later);
      NotEmpty(ms[0]);
      StreamRead(ms[1..]);
      assert (Wire(ms[0]) + later)[|Wire(ms[0])|..] == later;
    }
  }

  lemma NothingRead()
    ensures Read([]) == None
  {
  }
}
