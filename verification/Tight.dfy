/** The two pixel filters of the Tight decoder: gradient prediction and
    two-colour rows. */
module Tight {
  import opened Bytes
  import opened Tiles
  import Zrle
  import ZrleEncoding

  // Gradient prediction. Samples are numbered through: three to a pixel, w pixels
  // to a row.

  function ClampByte(n: int): byte {
    if n < 0 then 0 else if n > 255 then 255 else n
  }

  /** What a byte array stores. */
  function Wrap(n: int): byte {
    n % 256
  }

  /** What sample k is predicted to be, from the samples before it. */
  function Prediction(done: seq<byte>, w: nat, k: nat): byte
    requires w > 0 && k <= |done|
  {
    var p := k / 3;
    var left: int := if p % w == 0 then 0 else done[k - 3];
    var upper: int := if p < w then 0 else done[k - 3 * w];
    var upperLeft: int := if p < w || p % w == 0 then 0 else done[k - 3 * w - 3];
    ClampByte(left + upper - upperLeft)
  }

  /** Sample number c of the pixel in column x of row y. */
  function SampleIndex(w: nat, x: nat, y: nat, c: nat): nat {
    3 * (y * w + x) + c
  }

  function SampleAt(img: seq<byte>, w: nat, x: int, y: int, c: nat): byte {
    if 0 <= x && 0 <= y && SampleIndex(w, x, y, c) < |img| then img[SampleIndex(w, x, y, c)] else 0
  }

  /** The prediction is left + upper - upper-left, clamped, with zeros outside. */
  lemma PredictionIsGradient(img: seq<byte>, w: nat, x: nat, y: nat, c: nat)
    requires x < w && c < 3 && SampleIndex(w, x, y, c) < |img|
    ensures Prediction(img, w, SampleIndex(w, x, y, c))
            == ClampByte(SampleAt(img, w, x - 1, y, c) + SampleAt(img, w, x, y - 1, c) - SampleAt(img, w, x - 1, y - 1, c))
  {
    var k := SampleIndex(w, x, y, c);
    DivModUnique(k, 3, y * w + x, c);
    DivModUnique(y * w + x, w, y, x);
    if y > 0 {
      assert (y - 1) * w == y * w - w;
      MulMono(1, y, w);
    }
  }

  /** What the encoder sends: each sample's distance from its prediction. */
  function GradientEncode(img: seq<byte>, w: nat): (data: seq<byte>)
    requires w > 0
    ensures |data| == |img|
  {
    seq(|img|, k requires 0 <= k < |img| => Wrap(img[k] - Prediction(img, w, k)))
  }

  function GradientDecode(data: seq<byte>, w: nat): (img: seq<byte>)
    requires w > 0
    ensures |img| == |data|
  {
    if data == [] then [] else
    var n := |data| - 1;
    var before := GradientDecode(data[..n], w);
    before + [Wrap(data[n] + Prediction(before, w, n))]
  }

  lemma SamePrefix(a: seq<byte>, b: seq<byte>, k: nat, i: nat)
    requires k <= |a| && k <= |b| && a[..k] == b[..k] && i < k
    ensures a[i] == b[i]
  {
    assert a[i] == a[..k][i] && b[i] == b[..k][i];
  }

  lemma PredictionFromPrefix(a: seq<byte>, b: seq<byte>, w: nat, k: nat)
    requires w > 0 && k <= |a| && k <= |b| && a[..k] == b[..k]
    ensures Prediction(a, w, k) == Prediction(b, w, k)
  {
    var p := k / 3;
    if p % w != 0 {
      SamePrefix(a, b, k, k - 3);
    }
    if p >= w {
      SamePrefix(a, b, k, k - 3 * w);
      if p % w != 0 {
        SamePrefix(a, b, k, k - 3 * w - 3);
      }
    }
  }

  lemma {:induction false} EncodePrefix(img: seq<byte>, w: nat, n: nat)
    requires w > 0 && n <= |img|
    ensures GradientEncode(img, w)[..n] == GradientEncode(img[..n], w)
  {
    forall k | 0 <= k < n
      ensures Prediction(img, w, k) == Prediction(img[..n], w, k)
    {
      assert img[..n][..k] == img[..k];
      PredictionFromPrefix(img, img[..n], w, k);
    }
  }

  /** Decoding inverts encoding: every image of every width comes back. */
  lemma {:induction false} GradientRoundTrip(img: seq<byte>, w: nat)
    requires w > 0
    ensures GradientDecode(GradientEncode(img, w), w) == img
  {
    if img != [] {
      hide Prediction;
      var n := |img| - 1;
      var e, before := GradientEncode(img, w), img[..n];
      EncodePrefix(img, w, n);
      GradientRoundTrip(before, w);
      PredictionFromPrefix(img, before, w, n);
      WrapUndoes(img[n], Prediction(img, w, n));
      assert GradientDecode(e, w) == before + [img[n]];
    }
  }

  lemma WrapUndoes(value: byte, prediction: byte)
    ensures Wrap(Wrap(value - prediction) + prediction) == value
    ensures Wrap(Wrap(value + prediction) - prediction) == value
  {
    assert Wrap(value - prediction) == if value < prediction then value - prediction + 256 else value - prediction;
    assert Wrap(value + prediction) == if value + prediction < 256 then value + prediction else value + prediction - 256;
  }

  /** ... and encoding inverts decoding, so nothing else decodes to that image. */
  lemma {:induction false} GradientOnto(data: seq<byte>, w: nat)
    requires w > 0
    ensures GradientEncode(GradientDecode(data, w), w) == data
  {
    if data != [] {
      hide Prediction, Wrap;
      var n := |data| - 1;
      var img, before := GradientDecode(data, w), GradientDecode(data[..n], w);
      EncodePrefix(img, w, n);
      assert img[..n] == before;
      GradientOnto(data[..n], w);
      PredictionFromPrefix(img, before, w, n);
      WrapUndoes(data[n], Prediction(before, w, n));
      var e := GradientEncode(img, w);
      assert e[n] == data[n];
      hide GradientDecode, GradientEncode;
      SplitLast(e, n);
      SplitLast(data, n);
    }
  }

  lemma SplitLast(s: seq<byte>, n: nat)
    requires |s| == n + 1
    ensures s == s[..n] + [s[n]]
  {
  }

  /** Each sample is what was sent plus its prediction, modulo 256. */
  lemma DecodedSample(data: seq<byte>, w: nat, k: nat)
    requires w > 0 && k < |data|
    ensures var img := GradientDecode(data, w); img[k] == Wrap(data[k] + Prediction(img, w, k))
  {
    var img := GradientDecode(data, w);
    GradientOnto(data, w);
    EncodedSample(img, w, k);
    hide Prediction, GradientDecode, GradientEncode, Wrap;
    WrapUndoes(img[k], Prediction(img, w, k));
  }

  lemma EncodedSample(img: seq<byte>, w: nat, k: nat)
    requires w > 0 && k < |img|
    ensures GradientEncode(img, w)[k] == Wrap(img[k] - Prediction(img, w, k))
  {
  }

  // The filter's loops

  /** The first pixels of an image of 3-byte pixels, each made opaque. */
  ghost predicate Opaque(rgbx: seq<byte>, img: seq<byte>, pixels: nat) {
    4 * pixels <= |rgbx| && 3 * pixels <= |img| && forall p | 0 <= p < pixels :: OpaquePixel(rgbx, img, p)
  }

  ghost predicate OpaquePixel(rgbx: seq<byte>, img: seq<byte>, p: nat)
    requires 4 * p + 4 <= |rgbx| && 3 * p + 3 <= |img|
  {
    rgbx[4 * p] == img[3 * p] && rgbx[4 * p + 1] == img[3 * p + 1] && rgbx[4 * p + 2] == img[3 * p + 2] && rgbx[4 * p + 3] == 255
  }

  lemma OneMoreOpaque(before: seq<byte>, after: seq<byte>, img: seq<byte>, p: nat)
    requires Opaque(before, img, p) && |after| == |before| && 4 * p + 4 <= |after| && 3 * p + 3 <= |img|
    requires after[..4 * p] == before[..4 * p] && OpaquePixel(after, img, p)
    ensures Opaque(after, img, p + 1)
  {
    forall q | 0 <= q < p
      ensures OpaquePixel(after, img, q)
    {
      assert OpaquePixel(before, img, q);
      SamePrefix(after, before, 4 * p, 4 * q);
      SamePrefix(after, before, 4 * p, 4 * q + 1);
      SamePrefix(after, before, 4 * p, 4 * q + 2);
      SamePrefix(after, before, 4 * p, 4 * q + 3);
    }
  }

  function Sample(img: seq<byte>, zero: bool, i: int): byte {
    if !zero && 0 <= i < |img| then img[i] else 0
  }

  /** Three samples of the pixel at index i, or zeros. */
  ghost predicate Samples(s: seq<byte>, img: seq<byte>, zero: bool, i: int) {
    |s| == 3 && forall c | 0 <= c < 3 :: s[c] == Sample(img, zero, i + c)
  }

  /** The first c of three samples are those at i, the others still those at j. */
  ghost predicate Replaced(s: seq<byte>, img: seq<byte>, zero: bool, i: int, j: int, c: nat) {
    |s| == 3 && forall k | 0 <= k < 3 :: s[k] == if k < c then Sample(img, false, i + k) else Sample(img, zero, j + k)
  }

  lemma ReplacedNone(s: seq<byte>, img: seq<byte>, zero: bool, i: int, j: int)
    requires Samples(s, img, zero, j)
    ensures Replaced(s, img, zero, i, j, 0)
  {
  }

  lemma ReplacedOne(s: seq<byte>, img: seq<byte>, zero: bool, i: int, j: int, c: nat)
    requires Replaced(s, img, zero, i, j, c) && c < 3
    ensures |s| == 3 && s[c] == Sample(img, zero, j + c)
    ensures Replaced(s[c := Sample(img, false, i + c)], img, zero, i, j, c + 1)
  {
  }

  lemma ReplacedAll(s: seq<byte>, img: seq<byte>, zero: bool, i: int, j: int)
    requires Replaced(s, img, zero, i, j, 3)
    ensures Samples(s, img, false, i)
  {
  }

  lemma SampleIs(s: seq<byte>, img: seq<byte>, i: int, c: nat)
    requires Samples(s, img, false, i) && c < 3
    ensures |s| == 3 && s[c] == Sample(img, false, i + c)
  {
  }

  lemma NoSamples(s: seq<byte>, img: seq<byte>, i: int)
    requires s == [0, 0, 0]
    ensures Samples(s, img, true, i)
  {
  }

  method SetSample(a: array<byte>, c: nat, v: byte)
    requires c < a.Length == 3
    modifies a
    ensures a[..] == old(a[..])[c := v]
  {
    a[c] := v;
  }

  method Clear(a: array<byte>)
    requires a.Length == 3
    modifies a
    ensures a[..] == [0, 0, 0]
  {
    a[0], a[1], a[2] := 0, 0, 0;
  }

  method ClearBoth(left: array<byte>, upperLeft: array<byte>, ghost img: seq<byte>, ghost i: int, ghost j: int)
    requires left.Length == upperLeft.Length == 3 && left != upperLeft
    modifies left, upperLeft
    ensures Samples(left[..], img, true, i) && Samples(upperLeft[..], img, true, j)
  {
    Clear(left);
    Clear(upperLeft);
    NoSamples(left[..], img, i);
    NoSamples(upperLeft[..], img, j);
  }

  lemma SampleOf(data: seq<byte>, w: nat, p: nat, c: nat)
    requires w > 0 && c < 3 && 3 * p + c < |data|
    ensures var img := GradientDecode(data, w);
            var left: int := if p % w == 0 then 0 else img[3 * p - 3 + c];
            var upper: int := if p < w then 0 else img[3 * (p - w) + c];
            var upperLeft: int := if p <= w || p % w == 0 then 0 else img[3 * (p - w) - 3 + c];
            img[3 * p + c] == Wrap(data[3 * p + c] + ClampByte(left + upper - upperLeft))
  {
    DivModUnique(3 * p + c, 3, p, c);
    DecodedSample(data, w, 3 * p + c);
    FirstOfRow(w);
    hide GradientDecode, Wrap, ClampByte;
  }

  lemma FirstOfRow(w: nat)
    requires w > 0
    ensures 0 % w == 0 && w % w == 0
  {
    DivModUnique(0, w, 0, 0);
    DivModUnique(w, w, 1, 0);
  }

  /** Puts a decoded pixel and its fourth byte into place. */
  method StorePixel(rgbx: array<byte>, p: nat, pixel: seq<byte>, ghost img: seq<byte>)
    requires 4 * p + 4 <= rgbx.Length && 3 * p + 3 <= |img|
    requires Opaque(rgbx[..], img, p) && Samples(pixel, img, false, 3 * p)
    modifies rgbx
    ensures Opaque(rgbx[..], img, p + 1)
  {
    hide Opaque;
    ghost var before := rgbx[..];
    rgbx[4 * p] := pixel[0];
    rgbx[4 * p + 1] := pixel[1];
    rgbx[4 * p + 2] := pixel[2];
    rgbx[4 * p + 3] := 255;
    OneMoreOpaque(before, rgbx[..], img, p);
  }

  /** Pixel p is the one in column x of a row after the first. */
  ghost predicate InLaterRow(w: nat, x: nat, p: nat)
    requires w > 0
  {
    w <= p && p % w == x
  }

  lemma FirstSample(data: seq<byte>, w: nat, x: nat, c: nat)
    requires x < w && c < 3 && 3 * w <= |data|
    ensures var img := GradientDecode(data, w);
            var left: int := if x == 0 then 0 else img[3 * x - 3 + c];
            img[3 * x + c] == Wrap(data[3 * x + c] + left)
  {
    SampleOf(data, w, x, c);
    DivModUnique(x, w, 0, x);
    hide GradientDecode, Wrap;
  }

  /** Pixel x of the first row, predicted from the one on its left. */
  method FirstRowPixel(data: seq<byte>, w: nat, x: nat, left: array<byte>)
    requires x < w && 3 * w <= |data| && left.Length == 3
    requires Samples(left[..], GradientDecode(data, w), x == 0, 3 * x - 3)
    modifies left
    ensures Samples(left[..], GradientDecode(data, w), false, 3 * x)
  {
    ghost var img := GradientDecode(data, w);
    hide GradientDecode, Wrap, Samples, Replaced;
    ReplacedNone(left[..], img, x == 0, 3 * x, 3 * x - 3);
    for c := 0 to 3
      invariant Replaced(left[..], img, x == 0, 3 * x, 3 * x - 3, c)
    {
      FirstSample(data, w, x, c);
      ReplacedOne(left[..], img, x == 0, 3 * x, 3 * x - 3, c);
      var prediction: int := left[c];
      SetSample(left, c, Wrap(data[3 * x + c] + prediction));
    }
    ReplacedAll(left[..], img, x == 0, 3 * x, 3 * x - 3);
  }

  /** One sample of a later row, predicted from its three neighbours. */
  method LaterSample(data: seq<byte>, w: nat, x: nat, p: nat, c: nat, upper: byte, left: byte, upperLeft: byte)
      returns (value: byte)
    requires x < w && InLaterRow(w, x, p) && w + x <= p && c < 3 && 3 * p + 3 <= |data|
    requires var img := GradientDecode(data, w);
             && upper == Sample(img, false, 3 * (p - w) + c)
             && left == Sample(img, x == 0, 3 * p - 3 + c)
             && upperLeft == Sample(img, x == 0, 3 * (p - w) - 3 + c)
    ensures value == Sample(GradientDecode(data, w), false, 3 * p + c)
  {
    SampleOf(data, w, p, c);
    hide GradientDecode, Wrap;
    var prediction: int := left + upper - upperLeft;
    if prediction < 0 {
      prediction := 0;
    } else if prediction > 255 {
      prediction := 255;
    }
    value := Wrap(data[3 * p + c] + prediction);
  }

  method LaterRowPixel(data: seq<byte>, w: nat, x: nat, p: nat, upper: seq<byte>, left: array<byte>, upperLeft: array<byte>)
    requires x < w && InLaterRow(w, x, p) && w + x <= p && 3 * p + 3 <= |data|
    requires left.Length == upperLeft.Length == 3 && left != upperLeft
    requires Samples(upper, GradientDecode(data, w), false, 3 * (p - w))
    requires Samples(left[..], GradientDecode(data, w), x == 0, 3 * p - 3)
    requires Samples(upperLeft[..], GradientDecode(data, w), x == 0, 3 * (p - w) - 3)
    modifies left, upperLeft
    ensures Samples(left[..], GradientDecode(data, w), false, 3 * p)
    ensures Samples(upperLeft[..], GradientDecode(data, w), false, 3 * (p - w))
  {
    ghost var img, i, j := GradientDecode(data, w), 3 * p, 3 * (p - w);
    hide GradientDecode, InLaterRow, Sample, Samples, Replaced;
    ReplacedNone(left[..], img, x == 0, i, i - 3);
    ReplacedNone(upperLeft[..], img, x == 0, j, j - 3);
    for c := 0 to 3
      invariant Replaced(left[..], img, x == 0, i, i - 3, c) && Replaced(upperLeft[..], img, x == 0, j, j - 3, c)
    {
      SampleIs(upper, img, j, c);
      ReplacedOne(left[..], img, x == 0, i, i - 3, c);
      ReplacedOne(upperLeft[..], img, x == 0, j, j - 3, c);
      var value := LaterSample(data, w, x, p, c, upper[c], left[c], upperLeft[c]);
      SetSample(upperLeft, c, upper[c]);
      SetSample(left, c, value);
    }
    ReplacedAll(left[..], img, x == 0, i, i - 3);
    ReplacedAll(upperLeft[..], img, x == 0, j, j - 3);
  }

  /** The samples of a pixel that is in place. */
  method ReadPixel(rgbx: array<byte>, p: nat, ghost img: seq<byte>, ghost pixels: nat) returns (s: seq<byte>)
    requires p < pixels && Opaque(rgbx[..], img, pixels)
    ensures Samples(s, img, false, 3 * p)
  {
    assert OpaquePixel(rgbx[..], img, p);
    s := [rgbx[4 * p], rgbx[4 * p + 1], rgbx[4 * p + 2]];
  }

  method LaterPixel(data: seq<byte>, w: nat, x: nat, p: nat, rgbx: array<byte>, left: array<byte>, upperLeft: array<byte>)
    requires x < w && InLaterRow(w, x, p) && w + x <= p && 3 * p + 3 <= |data| && 4 * p + 4 <= rgbx.Length
    requires left.Length == upperLeft.Length == 3 && left != rgbx && upperLeft != rgbx && left != upperLeft
    requires Opaque(rgbx[..], GradientDecode(data, w), p)
    requires Samples(left[..], GradientDecode(data, w), x == 0, 3 * p - 3)
    requires Samples(upperLeft[..], GradientDecode(data, w), x == 0, 3 * (p - w) - 3)
    modifies rgbx, left, upperLeft
    ensures Opaque(rgbx[..], GradientDecode(data, w), p + 1)
    ensures Samples(left[..], GradientDecode(data, w), false, 3 * p)
    ensures Samples(upperLeft[..], GradientDecode(data, w), false, 3 * (p - w))
  {
    hide GradientDecode, Opaque, Samples, InLaterRow;
    ghost var img := GradientDecode(data, w);
    var upper := ReadPixel(rgbx, p - w, img, p);
    LaterRowPixel(data, w, x, p, upper, left, upperLeft);
    StorePixel(rgbx, p, left[..], img);
  }

  lemma AlongRow(w: nat, start: nat, x: nat)
    requires x < w && InLaterRow(w, 0, start)
    ensures InLaterRow(w, x, start + x)
  {
    DivModUnique(start + x, w, start / w, x);
  }

  method LaterRow(data: seq<byte>, w: nat, start: nat, rgbx: array<byte>, left: array<byte>, upperLeft: array<byte>)
    requires w > 0 && InLaterRow(w, 0, start) && w <= start && 3 * (start + w) <= |data| && 4 * (start + w) <= rgbx.Length
    requires left.Length == upperLeft.Length == 3 && left != rgbx && upperLeft != rgbx && left != upperLeft
    requires Opaque(rgbx[..], GradientDecode(data, w), start)
    modifies rgbx, left, upperLeft
    ensures Opaque(rgbx[..], GradientDecode(data, w), start + w)
  {
    ghost var img := GradientDecode(data, w);
    hide GradientDecode, Opaque, Samples, InLaterRow;
    ClearBoth(left, upperLeft, img, 3 * start - 3, 3 * (start - w) - 3);
    assert start + 0 == start;
    for x := 0 to w
      invariant Opaque(rgbx[..], img, start + x)
      invariant Samples(left[..], img, x == 0, 3 * (start + x) - 3)
      invariant Samples(upperLeft[..], img, x == 0, 3 * (start + x - w) - 3)
    {
      AlongRow(w, start, x);
      LaterPixel(data, w, x, start + x, rgbx, left, upperLeft);
    }
  }

  lemma RowFits(w: nat, h: nat, y: nat)
    requires y < h
    ensures y * w + w <= w * h && (y + 1) * w == y * w + w
    ensures y > 0 ==> w <= y * w
  {
    MulMono(y + 1, h, w);
    if y > 0 {
      MulMono(1, y, w);
    }
  }

  method FirstRow(data: seq<byte>, w: nat, rgbx: array<byte>, left: array<byte>)
    requires w > 0 && 3 * w <= |data| && 4 * w <= rgbx.Length && left.Length == 3 && left != rgbx
    requires forall c | 0 <= c < 3 :: left[c] == 0
    modifies rgbx, left
    ensures Opaque(rgbx[..], GradientDecode(data, w), w)
  {
    ghost var img := GradientDecode(data, w);
    assert Samples(left[..], img, true, -3) && Opaque(rgbx[..], img, 0);
    hide GradientDecode, Opaque, Samples;
    for x := 0 to w
      invariant Opaque(rgbx[..], img, x) && Samples(left[..], img, x == 0, 3 * x - 3)
    {
      FirstRowPixel(data, w, x, left);
      StorePixel(rgbx, x, left[..], img);
    }
  }

  method GradientFilter(data: seq<byte>, w: nat, h: nat) returns (rgbx: array<byte>)
    requires w > 0 && h > 0 && |data| == 3 * (w * h)
    ensures fresh(rgbx) && rgbx.Length == 4 * (w * h)
    ensures Opaque(rgbx[..], GradientDecode(data, w), w * h)
  {
    hide GradientDecode, Opaque, InLaterRow, RowStart;
    RowFits(w, h, 0);
    var pixels := w * h;
    rgbx := new byte[4 * pixels](_ => 0);
    var left := new byte[3](_ => 0);
    FirstRow(data, w, rgbx, left);
    var upperLeft := new byte[3](_ => 0);
    StartsAfter(w, 0);
    for y := 1 to h
      invariant Opaque(rgbx[..], GradientDecode(data, w), RowStart(w, y))
    {
      StartsAfter(w, y);
      StartInside(w, h, y);
      LaterRow(data, w, RowStart(w, y), rgbx, left, upperLeft);
    }
    LastStart(w, h);
  }

  /** The first pixel of a row. */
  function RowStart(w: nat, y: nat): nat {
    y * w
  }

  lemma StartsAfter(w: nat, y: nat)
    ensures RowStart(w, y + 1) == RowStart(w, y) + w && RowStart(w, 0) == 0
  {
  }

  lemma LastStart(w: nat, h: nat)
    ensures RowStart(w, h) == w * h
  {
  }

  lemma StartInside(w: nat, h: nat, y: nat)
    requires w > 0 && 0 < y < h
    ensures InLaterRow(w, 0, RowStart(w, y)) && w <= RowStart(w, y) && RowStart(w, y) + w <= w * h
  {
    RowFits(w, h, y);
    PixelPlace(w, y, 0);
  }

  // Two colours, one bit a pixel

  function RowSize(w: nat): nat {
    Zrle.RowBytes(w, 1)
  }

  /** The bit of pixel x in row y, the most significant bit of a byte first. */
  function MonoBit(data: seq<byte>, w: nat, x: nat, y: nat): nat {
    var i := y * RowSize(w) + x / 8;
    if i < |data| then data[i] / Pow2(7 - x % 8) % 2 else 0
  }

  /** The samples of the image that the bits select from the palette. */
  function MonoImage(data: seq<byte>, palette: seq<byte>, w: nat, pixels: nat): (img: seq<byte>)
    requires |palette| >= 6 && w > 0
    ensures |img| == 3 * pixels
  {
    seq(3 * pixels, k requires 0 <= k < 3 * pixels => palette[3 * MonoBit(data, w, k / 3 % w, k / 3 / w) + k % 3])
  }

  ghost function PackedRow(row: seq<nat>, w: nat): (r: seq<byte>)
    requires ZrleEncoding.RowOk(row, 2, w)
    ensures |r| == RowSize(w)
  {
    ZrleEncoding.RowWhole(row, 2, w);
    var r := ZrleEncoding.PackFields(row, Zrle.BitsPerPixel(2));
    UniqueQuotient(8, |r|, 0, RowSize(w), 0);
    r
  }

  /** What the encoder sends for an image: its rows, each packed by itself. */
  ghost function MonoBytes(rows: seq<seq<nat>>, w: nat): seq<byte>
    requires forall r | 0 <= r < |rows| :: ZrleEncoding.RowOk(rows[r], 2, w)
  {
    if rows == [] then [] else
    assert ZrleEncoding.RowOk(rows[0], 2, w);
    PackedRow(rows[0], w) + MonoBytes(rows[1..], w)
  }

  lemma {:induction false} RowsAt(rows: seq<seq<nat>>, w: nat, y: nat, i: nat)
    requires forall r | 0 <= r < |rows| :: ZrleEncoding.RowOk(rows[r], 2, w)
    requires y < |rows| && ZrleEncoding.RowOk(rows[y], 2, w) && i < RowSize(w)
    ensures var data := MonoBytes(rows, w);
            y * RowSize(w) + i < |data| && data[y * RowSize(w) + i] == PackedRow(rows[y], w)[i]
    decreases |rows|
  {
    hide PackedRow, RowSize, ZrleEncoding.RowOk;
    if y > 0 {
      RowsAt(rows[1..], w, y - 1, i);
      assert (y - 1) * RowSize(w) + RowSize(w) == y * RowSize(w);
    }
  }

  /** Reading the bits inverts packing the rows, for every width: a row ends at a
      whole byte, and its unused bits are skipped. */
  lemma MonoRoundTrip(rows: seq<seq<nat>>, w: nat, x: nat, y: nat)
    requires forall r | 0 <= r < |rows| :: ZrleEncoding.RowOk(rows[r], 2, w)
    requires y < |rows| && x < w <= |rows[y]|
    ensures MonoBit(MonoBytes(rows, w), w, x, y) == rows[y][x]
  {
    assert ZrleEncoding.RowOk(rows[y], 2, w);
    hide PackedRow, MonoBytes, RowSize, Pow2, ZrleEncoding.RowOk;
    PackedBit(rows[y], w, x);
    RowsAt(rows, w, y, x / 8);
  }

  lemma PackedBit(row: seq<nat>, w: nat, x: nat)
    requires ZrleEncoding.RowOk(row, 2, w) && x < w <= |row|
    ensures x / 8 < RowSize(w) && PackedRow(row, w)[x / 8] / Pow2(7 - x % 8) % 2 == row[x]
  {
    Zrle.RowHolds(w, 1, x);
    ZrleEncoding.RowWhole(row, 2, w);
    ZrleEncoding.FieldsRead(row, 1, x);
    hide Pow2, ZrleEncoding.PackFields;
  }

  lemma MonoSample(data: seq<byte>, palette: seq<byte>, w: nat, pixels: nat, y: nat, x: nat, j: nat)
    requires |palette| >= 6 && 8 * x + j < w && j < 8 && y * w + 8 * x + j < pixels && y * RowSize(w) + x < |data|
    ensures var bit := data[y * RowSize(w) + x] / Pow2(7 - j) % 2;
            Samples([palette[3 * bit], palette[3 * bit + 1], palette[3 * bit + 2]], MonoImage(data, palette, w, pixels),
                    false, 3 * (y * w + 8 * x + j))
  {
    hide MonoBit, MonoImage, RowSize, Pow2, Samples;
    PixelPlace(w, y, 8 * x + j);
    MonoBitAt(data, w, y, x, j);
    MonoPixel(data, palette, w, pixels, y * w + 8 * x + j);
  }

  lemma MonoPixel(data: seq<byte>, palette: seq<byte>, w: nat, pixels: nat, p: nat)
    requires |palette| >= 6 && w > 0 && p < pixels
    ensures var bit := MonoBit(data, w, p % w, p / w);
            Samples([palette[3 * bit], palette[3 * bit + 1], palette[3 * bit + 2]], MonoImage(data, palette, w, pixels), false, 3 * p)
  {
    hide MonoBit, MonoImage;
    MonoImageAt(data, palette, w, pixels, p, 0);
    MonoImageAt(data, palette, w, pixels, p, 1);
    MonoImageAt(data, palette, w, pixels, p, 2);
  }

  lemma PixelPlace(w: nat, y: nat, x: nat)
    requires x < w
    ensures (y * w + x) / w == y && (y * w + x) % w == x
  {
    DivModUnique(y * w + x, w, y, x);
  }

  lemma MonoBitAt(data: seq<byte>, w: nat, y: nat, x: nat, j: nat)
    requires j < 8 && y * RowSize(w) + x < |data|
    ensures MonoBit(data, w, 8 * x + j, y) == data[y * RowSize(w) + x] / Pow2(7 - j) % 2
  {
    DivModUnique(8 * x + j, 8, x, j);
    hide RowSize, Pow2;
  }

  lemma MonoImageAt(data: seq<byte>, palette: seq<byte>, w: nat, pixels: nat, p: nat, c: nat)
    requires |palette| >= 6 && w > 0 && p < pixels && c < 3
    ensures MonoImage(data, palette, w, pixels)[3 * p + c] == palette[3 * MonoBit(data, w, p % w, p / w) + c]
  {
    DivModUnique(3 * p + c, 3, p, c);
    hide MonoBit;
  }

  /** The first `count` bits of one byte. */
  method MonoByte(data: seq<byte>, palette: seq<byte>, w: nat, ghost pixels: nat, y: nat, x: nat, count: nat, dest: array<byte>)
    requires |palette| >= 6 && w > 0 && count <= 8 && 8 * x + count <= w && y * w + 8 * x + count <= pixels
    requires y * RowSize(w) + x < |data| || count == 0
    requires 4 * pixels <= dest.Length && Opaque(dest[..], MonoImage(data, palette, w, pixels), y * w + 8 * x)
    modifies dest
    ensures Opaque(dest[..], MonoImage(data, palette, w, pixels), y * w + 8 * x + count)
  {
    hide Opaque, MonoImage, Samples;
    var b := 7;
    while b >= 8 - count
      invariant 7 - count <= b <= 7
      invariant Opaque(dest[..], MonoImage(data, palette, w, pixels), y * w + 8 * x + 7 - b)
    {
      MonoSample(data, palette, w, pixels, y, x, 7 - b);
      var sp := data[y * RowSize(w) + x] / Pow2(b) % 2 * 3;
      StorePixel(dest, y * w + 8 * x + 7 - b, [palette[sp], palette[sp + 1], palette[sp + 2]],
                 MonoImage(data, palette, w, pixels));
      b := b - 1;
    }
  }

  lemma RowBytesFit(w: nat, h: nat, y: nat, x: nat)
    requires y < h && 8 * x < w
    ensures y * RowSize(w) + x < RowSize(w) * h
  {
    CeilDivStarts(w, 8, x);
    RowFits(RowSize(w), h, y);
  }

  method MonoRow(data: seq<byte>, palette: seq<byte>, w: nat, h: nat, y: nat, dest: array<byte>)
    requires |palette| >= 6 && w > 0 && y < h && RowSize(w) * h <= |data|
    requires 4 * (w * h) <= dest.Length && Opaque(dest[..], MonoImage(data, palette, w, w * h), y * w)
    modifies dest
    ensures Opaque(dest[..], MonoImage(data, palette, w, w * h), y * w + w)
  {
    hide Opaque, MonoImage, RowSize;
    RowFits(w, h, y);
    var w1 := w / 8;
    for x := 0 to w1
      invariant Opaque(dest[..], MonoImage(data, palette, w, w * h), y * w + 8 * x)
    {
      RowBytesFit(w, h, y, x);
      MonoByte(data, palette, w, w * h, y, x, 8, dest);
    }
    if w % 8 != 0 {
      RowBytesFit(w, h, y, w1);
    }
    MonoByte(data, palette, w, w * h, y, w1, w % 8, dest);
  }

  /** The scratch buffer may be larger than the image, and keeps what lies beyond. */
  method MonoRect(data: seq<byte>, palette: seq<byte>, w: nat, h: nat, dest: array<byte>)
    requires |palette| >= 6 && w > 0 && RowSize(w) * h <= |data| && 4 * (w * h) <= dest.Length
    modifies dest
    ensures Opaque(dest[..], MonoImage(data, palette, w, w * h), w * h)
  {
    hide Opaque, MonoImage, RowSize;
    NothingOpaque(dest[..], MonoImage(data, palette, w, w * h));
    for y := 0 to h
      invariant Opaque(dest[..], MonoImage(data, palette, w, w * h), y * w)
    {
      RowFits(w, h, y);
      MonoRow(data, palette, w, h, y, dest);
    }
  }

  lemma NothingOpaque(rgbx: seq<byte>, img: seq<byte>)
    ensures Opaque(rgbx, img, 0)
  {
  }
}
