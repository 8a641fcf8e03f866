/** The client-to-server messages and the serializers that print them into the
    send buffer (section 7.5 of RFC 6143 and its registered extensions). */
module ClientMessages {
  import opened Bytes
  import opened SendQueue

  datatype ClientMessage =
    | PixelFormat(depth: nat, trueColor: bool)
    | ClientEncodings(encodings: seq<int>)
    | FbUpdateRequest(incremental: bool, x: int, y: int, w: int, h: int)
    | KeyEvent(keysym: int, down: bool)
    | PointerEvent(x: int, y: int, mask: int)
    | ClientCutText(data: seq<byte>, extended: bool)
    | EnableContinuousUpdates(enable: bool, x: int, y: int, w: int, h: int)
    | QemuExtendedKeyEvent(keysym: int, down: bool, keycode: int)
    | ExtendedPointerEvent(x: int, y: int, mask: int)
    | SetDesktopSize(width: int, height: int, id: int, flags: int)
    | ClientFence(flags: int, payload: seq<byte>)
    | XvpOp(ver: int, op: int)

  function Bit(b: bool): byte {
    if b then 1 else 0
  }

  function BitsPerPixel(depth: nat): nat {
    if depth > 16 then 32 else if depth > 8 then 16 else 8
  }

  /** Extended scan codes lose their 0xe0 prefix and gain the high bit. */
  function RfbKeycode(keycode: int): int {
    if keycode / TWO_8 == 0xe0 && keycode % TWO_8 < 0x7f then keycode % TWO_8 + 0x80 else keycode
  }

  function EncodingList(encodings: seq<int>): (r: seq<byte>)
    ensures |r| == 4 * |encodings|
  {
    if encodings == [] then [] else
    EncodingList(encodings[..|encodings| - 1]) + U32(encodings[|encodings| - 1])
  }

  // The wire form of each message, field by field.

  function PixelFormatBytes(depth: nat, trueColor: bool): seq<byte> {
    PixelHeaderBytes(depth, trueColor) + PixelMaximaBytes(depth / 3) + PixelShiftsBytes(depth / 3)
  }

  function PixelHeaderBytes(depth: nat, trueColor: bool): seq<byte> {
    [] + U8(0) + U8(0) + U8(0) + U8(0) + U8(BitsPerPixel(depth)) + U8(depth) + U8(0) + U8(Bit(trueColor))
  }

  function PixelMaximaBytes(bits: nat): seq<byte> {
    var max := Pow2(bits % 32) - 1;
    [] + U16(max) + U16(max) + U16(max)
  }

  function PixelShiftsBytes(bits: nat): seq<byte> {
    [] + U8(bits * 0) + U8(bits * 1) + U8(bits * 2) + U8(0) + U8(0) + U8(0)
  }

  function ClientEncodingsBytes(encodings: seq<int>): seq<byte> {
    [] + U8(2) + U8(0) + U16(|encodings|) + EncodingList(encodings)
  }

  function FbUpdateRequestBytes(incremental: bool, x: int, y: int, w: int, h: int): seq<byte> {
    [] + U8(3) + U8(Bit(incremental)) + U16(x) + U16(y) + U16(w) + U16(h)
  }

  function KeyEventBytes(keysym: int, down: bool): seq<byte> {
    [] + U8(4) + U8(Bit(down)) + U16(0) + U32(keysym)
  }

  function PointerEventBytes(x: int, y: int, mask: int): seq<byte> {
    [] + U8(5) + U8(mask % 0x80) + U16(x) + U16(y)
  }

  function ClientCutTextBytes(data: seq<byte>, extended: bool): seq<byte> {
    [] + U8(6) + U8(0) + U8(0) + U8(0) + U32(if extended then -|data| else |data|) + data
  }

  function EnableContinuousUpdatesBytes(enable: bool, x: int, y: int, w: int, h: int): seq<byte> {
    [] + U8(150) + U8(Bit(enable)) + U16(x) + U16(y) + U16(w) + U16(h)
  }

  function QemuExtendedKeyEventBytes(keysym: int, down: bool, keycode: int): seq<byte> {
    [] + U8(255) + U8(0) + U16(Bit(down)) + U32(keysym) + U32(RfbKeycode(keycode))
  }

  function ExtendedPointerEventBytes(x: int, y: int, mask: int): seq<byte> {
    [] + U8(5) + U8(mask % 0x80 + 0x80) + U16(x) + U16(y) + U8(mask / 0x80 % TWO_8)
  }

  function SetDesktopSizeBytes(width: int, height: int, id: int, flags: int): seq<byte> {
    DesktopHeaderBytes(width, height) + ScreenBytes(width, height, id, flags)
  }

  function DesktopHeaderBytes(width: int, height: int): seq<byte> {
    [] + U8(251) + U8(0) + U16(width) + U16(height) + U8(1) + U8(0)
  }

  function ScreenBytes(width: int, height: int, id: int, flags: int): seq<byte> {
    [] + U32(id) + U16(0) + U16(0) + U16(width) + U16(height) + U32(flags)
  }

  function ClientFenceBytes(flags: int, payload: seq<byte>): seq<byte> {
    [] + U8(248) + U8(0) + U8(0) + U8(0) + U32(flags) + U8(|payload|) + payload
  }

  function XvpOpBytes(ver: int, op: int): seq<byte> {
    [] + U8(250) + U8(0) + U8(ver) + U8(op)
  }

  function Wire(m: ClientMessage): seq<byte> {
    match m
    case PixelFormat(depth, trueColor) => PixelFormatBytes(depth, trueColor)
    case ClientEncodings(encodings) => ClientEncodingsBytes(encodings)
    case FbUpdateRequest(incremental, x, y, w, h) => FbUpdateRequestBytes(incremental, x, y, w, h)
    case KeyEvent(keysym, down) => KeyEventBytes(keysym, down)
    case PointerEvent(x, y, mask) => PointerEventBytes(x, y, mask)
    case ClientCutText(data, extended) => ClientCutTextBytes(data, extended)
    case EnableContinuousUpdates(enable, x, y, w, h) => EnableContinuousUpdatesBytes(enable, x, y, w, h)
    case QemuExtendedKeyEvent(keysym, down, keycode) => QemuExtendedKeyEventBytes(keysym, down, keycode)
    case ExtendedPointerEvent(x, y, mask) => ExtendedPointerEventBytes(x, y, mask)
    case SetDesktopSize(width, height, id, flags) => SetDesktopSizeBytes(width, height, id, flags)
    case ClientFence(flags, payload) => ClientFenceBytes(flags, payload)
    case XvpOp(ver, op) => XvpOpBytes(ver, op)
  }

  function WireAll(ms: seq<ClientMessage>): seq<byte> {
    if ms == [] then [] else Wire(ms[0]) + WireAll(ms[1..])
  }

  lemma Concat3<T>(a: seq<T>, b: seq<T>, c: seq<T>, d: seq<T>)
    ensures a + b + c + d == a + (b + c + d)
    ensures a + b + c == a + (b + c)
  {
  }

  // The serializers. Each prints the wire form of its message and flushes.

  method PushPixelHeader(sock: SendBuffer, depth: nat, trueColor: bool)
    requires sock.Valid() && sock.open
    modifies sock`sQlen, sock`frames, sock`earlier, sock`message, sock.sQ
    ensures sock.Valid() && sock.Pushed() == old(sock.Pushed()) + PixelHeaderBytes(depth, trueColor)
  {
    sock.Begin();
    sock.Push8(0);
    sock.Push8(0);
    sock.Push8(0);
    sock.Push8(0);
    sock.Push8(BitsPerPixel(depth));
    sock.Push8(depth);
    sock.Push8(0);
    sock.Push8(Bit(trueColor));
  }

  method PushPixelMaxima(sock: SendBuffer, bits: nat)
    requires sock.Valid() && sock.open
    modifies sock`sQlen, sock`frames, sock`earlier, sock`message, sock.sQ
    ensures sock.Valid() && sock.Pushed() == old(sock.Pushed()) + PixelMaximaBytes(bits)
  {
    sock.Begin();
    var max := Pow2(bits % 32) - 1;
    sock.Push16(max);
    sock.Push16(max);
    sock.Push16(max);
  }

  method PushPixelShifts(sock: SendBuffer, bits: nat)
    requires sock.Valid() && sock.open
    modifies sock`sQlen, sock`frames, sock`earlier, sock`message, sock.sQ
    ensures sock.Valid() && sock.Pushed() == old(sock.Pushed()) + PixelShiftsBytes(bits)
  {
    sock.Begin();
    sock.Push8(bits * 0);
    sock.Push8(bits * 1);
    sock.Push8(bits * 2);
    sock.Push8(0);
    sock.Push8(0);
    sock.Push8(0);
  }

  method PushPixelFormat(sock: SendBuffer, depth: nat, trueColor: bool)
    requires sock.Valid() && sock.open
    modifies sock`sQlen, sock`frames, sock`earlier, sock`message, sock.sQ
    ensures sock.Valid() && sock.Pushed() == old(sock.Pushed()) + PixelFormatBytes(depth, trueColor)
    ensures sock.sQlen == 0
  {
    PushPixelHeader(sock, depth, trueColor);
    PushPixelMaxima(sock, depth / 3);
    PushPixelShifts(sock, depth / 3);
    sock.Flush();
    Concat3(old(sock.Pushed()), PixelHeaderBytes(depth, trueColor), PixelMaximaBytes(depth / 3),
            PixelShiftsBytes(depth / 3));
  }

  method PushEncodingList(sock: SendBuffer, encodings: seq<int>)
    requires sock.Valid() && sock.open
    modifies sock`sQlen, sock`frames, sock`earlier, sock`message, sock.sQ
    ensures sock.Valid() && sock.Pushed() == old(sock.Pushed()) + EncodingList(encodings)
  {
    sock.Begin();
    for i := 0 to |encodings|
      invariant sock.Valid() && sock.open
      invariant sock.earlier == old(sock.Pushed()) && sock.message == EncodingList(encodings[..i])
    {
      sock.Push32(encodings[i]);
      assert encodings[..i + 1][..i] == encodings[..i];
    }
    assert encodings[..|encodings|] == encodings;
  }

  method PushClientEncodings(sock: SendBuffer, encodings: seq<int>)
    requires sock.Valid() && sock.open
    modifies sock`sQlen, sock`frames, sock`earlier, sock`message, sock.sQ
    ensures sock.Valid() && sock.Pushed() == old(sock.Pushed()) + ClientEncodingsBytes(encodings)
    ensures sock.sQlen == 0
  {
    sock.Begin();
    sock.Push8(2);
    sock.Push8(0);
    sock.Push16(|encodings|);
    PushEncodingList(sock, encodings);
    sock.Flush();
    Concat3(old(sock.Pushed()), [] + U8(2) + U8(0) + U16(|encodings|), EncodingList(encodings), []);
  }

  method PushFbUpdateRequest(sock: SendBuffer, incremental: bool, x: int, y: int, w: int, h: int)
    requires sock.Valid() && sock.open
    modifies sock`sQlen, sock`frames, sock`earlier, sock`message, sock.sQ
    ensures sock.Valid() && sock.Pushed() == old(sock.Pushed()) + FbUpdateRequestBytes(incremental, x, y, w, h)
    ensures sock.sQlen == 0
  {
    sock.Begin();
    sock.Push8(3);
    sock.Push8(Bit(incremental));
    sock.Push16(x);
    sock.Push16(y);
    sock.Push16(w);
    sock.Push16(h);
    sock.Flush();
  }

  method PushKeyEvent(sock: SendBuffer, keysym: int, down: bool)
    requires sock.Valid() && sock.open
    modifies sock`sQlen, sock`frames, sock`earlier, sock`message, sock.sQ
    ensures sock.Valid() && sock.Pushed() == old(sock.Pushed()) + KeyEventBytes(keysym, down)
    ensures sock.sQlen == 0
  {
    sock.Begin();
    sock.Push8(4);
    sock.Push8(Bit(down));
    sock.Push16(0);
    sock.Push32(keysym);
    sock.Flush();
  }

  method PushQemuExtendedKeyEvent(sock: SendBuffer, keysym: int, down: bool, keycode: int)
    requires sock.Valid() && sock.open
    modifies sock`sQlen, sock`frames, sock`earlier, sock`message, sock.sQ
    ensures sock.Valid() && sock.Pushed() == old(sock.Pushed()) + QemuExtendedKeyEventBytes(keysym, down, keycode)
    ensures sock.sQlen == 0
  {
    sock.Begin();
    sock.Push8(255);
    sock.Push8(0);
    sock.Push16(Bit(down));
    sock.Push32(keysym);
    sock.Push32(RfbKeycode(keycode));
    sock.Flush();
  }

  method PushPointerEvent(sock: SendBuffer, x: int, y: int, mask: int)
    requires sock.Valid() && sock.open
    modifies sock`sQlen, sock`frames, sock`earlier, sock`message, sock.sQ
    ensures sock.Valid() && sock.Pushed() == old(sock.Pushed()) + PointerEventBytes(x, y, mask)
    ensures sock.sQlen == 0
  {
    sock.Begin();
    sock.Push8(5);
    sock.Push8(mask % 0x80);
    sock.Push16(x);
    sock.Push16(y);
    sock.Flush();
  }

  /** Refuses masks above nine bits, but only after the type byte is queued. */
  method PushExtendedPointerEvent(sock: SendBuffer, x: int, y: int, mask: int) returns (ok: bool)
    requires sock.Valid() && sock.open
    modifies sock`sQlen, sock`frames, sock`earlier, sock`message, sock.sQ
    ensures sock.Valid() && (ok <==> mask / 0x80 % TWO_8 < 4)
    ensures ok ==> sock.Pushed() == old(sock.Pushed()) + ExtendedPointerEventBytes(x, y, mask)
    ensures !ok ==> sock.Pushed() == old(sock.Pushed()) + ([] + U8(5))
  {
    sock.Begin();
    sock.Push8(5);
    var higherBits := mask / 0x80 % TWO_8;
    if higherBits / 4 != 0 {
      return false;
    }
    sock.Push8(mask % 0x80 + 0x80);
    sock.Push16(x);
    sock.Push16(y);
    sock.Push8(higherBits);
    sock.Flush();
    return true;
  }

  method PushClientCutText(sock: SendBuffer, data: seq<byte>, extended: bool)
    requires sock.Valid() && sock.open
    modifies sock`sQlen, sock`frames, sock`earlier, sock`message, sock.sQ
    ensures sock.Valid() && sock.Pushed() == old(sock.Pushed()) + ClientCutTextBytes(data, extended)
    ensures sock.sQlen == 0
  {
    sock.Begin();
    sock.Push8(6);
    sock.Push8(0);
    sock.Push8(0);
    sock.Push8(0);
    var length := if extended then -|data| else |data|;
    sock.Push32(length);
    sock.PushBytes(data);
    sock.Flush();
  }

  method PushDesktopHeader(sock: SendBuffer, width: int, height: int)
    requires sock.Valid() && sock.open
    modifies sock`sQlen, sock`frames, sock`earlier, sock`message, sock.sQ
    ensures sock.Valid() && sock.Pushed() == old(sock.Pushed()) + DesktopHeaderBytes(width, height)
  {
    sock.Begin();
    sock.Push8(251);
    sock.Push8(0);
    sock.Push16(width);
    sock.Push16(height);
    sock.Push8(1);
    sock.Push8(0);
  }

  method PushScreen(sock: SendBuffer, width: int, height: int, id: int, flags: int)
    requires sock.Valid() && sock.open
    modifies sock`sQlen, sock`frames, sock`earlier, sock`message, sock.sQ
    ensures sock.Valid() && sock.Pushed() == old(sock.Pushed()) + ScreenBytes(width, height, id, flags)
  {
    sock.Begin();
    sock.Push32(id);
    sock.Push16(0);
    sock.Push16(0);
    sock.Push16(width);
    sock.Push16(height);
    sock.Push32(flags);
  }

  method PushSetDesktopSize(sock: SendBuffer, width: int, height: int, id: int, flags: int)
    requires sock.Valid() && sock.open
    modifies sock`sQlen, sock`frames, sock`earlier, sock`message, sock.sQ
    ensures sock.Valid() && sock.Pushed() == old(sock.Pushed()) + SetDesktopSizeBytes(width, height, id, flags)
    ensures sock.sQlen == 0
  {
    PushDesktopHeader(sock, width, height);
    PushScreen(sock, width, height, id, flags);
    sock.Flush();
    Concat3(old(sock.Pushed()), DesktopHeaderBytes(width, height), ScreenBytes(width, height, id, flags), []);
  }

  method PushClientFence(sock: SendBuffer, flags: int, payload: seq<byte>)
    requires sock.Valid() && sock.open
    modifies sock`sQlen, sock`frames, sock`earlier, sock`message, sock.sQ
    ensures sock.Valid() && sock.Pushed() == old(sock.Pushed()) + ClientFenceBytes(flags, payload)
    ensures sock.sQlen == 0
  {
    sock.Begin();
    sock.Push8(248);
    sock.Push8(0);
    sock.Push8(0);
    sock.Push8(0);
    sock.Push32(flags);
    sock.Push8(|payload|);
    sock.PushBytes(payload);
    sock.Flush();
  }

  method PushEnableContinuousUpdates(sock: SendBuffer, enable: bool, x: int, y: int, w: int, h: int)
    requires sock.Valid() && sock.open
    modifies sock`sQlen, sock`frames, sock`earlier, sock`message, sock.sQ
    ensures sock.Valid() && sock.Pushed() == old(sock.Pushed()) + EnableContinuousUpdatesBytes(enable, x, y, w, h)
    ensures sock.sQlen == 0
  {
    sock.Begin();
    sock.Push8(150);
    sock.Push8(Bit(enable));
    sock.Push16(x);
    sock.Push16(y);
    sock.Push16(w);
    sock.Push16(h);
    sock.Flush();
  }

  method PushXvpOp(sock: SendBuffer, ver: int, op: int)
    requires sock.Valid() && sock.open
    modifies sock`sQlen, sock`frames, sock`earlier, sock`message, sock.sQ
    ensures sock.Valid() && sock.Pushed() == old(sock.Pushed()) + XvpOpBytes(ver, op)
    ensures sock.sQlen == 0
  {
    sock.Begin();
    sock.Push8(250);
    sock.Push8(0);
    sock.Push8(ver);
    sock.Push8(op);
    sock.Flush();
  }
}
