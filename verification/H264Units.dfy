/** Payloads printed from their units (annex B of ITU-T H.264): the parser cuts them
    behind each slice. */
module H264Units {
  import opened Bytes
  import opened H264Frames

  /** A unit behind a short or a long start sequence: two bits of importance and five of
      type in front of its content. */
  datatype Unit = Unit(long: bool, importance: nat, kind: nat, content: seq<byte>)

  const SLICE: nat := 1

  const KEY_SLICE: nat := 5

  /** Encoders never print three bytes 0, 0, 1 within a unit, and no zero at its end. */
  ghost predicate Printable(u: Unit) {
    && u.importance < 4 && u.kind < 32
    && (var s := [u.importance * 32 + u.kind] + u.content;
        s[|s| - 1] != 0 && forall j | 0 <= j < |s| - 2 :: !(s[j] == 0 && s[j + 1] == 0 && s[j + 2] == 1))
  }

  function Opening(long: bool): (s: seq<byte>)
    ensures |s| == if long then 4 else 3
  {
    if long then [0, 0, 0, 1] else [0, 0, 1]
  }

  ghost function Body(u: Unit): seq<byte>
    requires Printable(u)
  {
    [u.importance * 32 + u.kind] + u.content
  }

  ghost function UnitWire(u: Unit): seq<byte>
    requires Printable(u)
  {
    Opening(u.long) + Body(u)
  }

  ghost predicate AllPrintable(us: seq<Unit>) {
    forall i | 0 <= i < |us| :: Printable(us[i])
  }

  ghost function Wire(us: seq<Unit>): seq<byte>
    requires AllPrintable(us)
  {
    if us == [] then [] else UnitWire(us[0]) + Wire(us[1..])
  }

  predicate Slice(u: Unit) {
    u.kind == SLICE || u.kind == KEY_SLICE
  }

  /** The units up to and with the first slice. */
  function FirstFrame(us: seq<Unit>): (n: nat)
    ensures n <= |us| && (us != [] ==> n > 0)
  {
    if us == [] then 0 else if Slice(us[0]) then 1 else 1 + FirstFrame(us[1..])
  }

  /** One frame up to each slice, and one more for units behind the last slice. */
  ghost function Cut(us: seq<Unit>): seq<Encoded>
    requires AllPrintable(us)
    decreases |us|
  {
    if us == [] then [] else
    var n := FirstFrame(us);
    [Encoded(Wire(us[..n]), us[n - 1].kind == KEY_SLICE)] + Cut(us[n..])
  }

  // One unit

  /** No start sequence begins within a unit's body, whatever follows. */
  lemma NoStartInside(u: Unit, more: seq<byte>, j: nat)
    requires Printable(u) && j < |Body(u)|
    ensures StartLen(Body(u) + more, j) == 0
  {
    var s := Body(u);
    var q := s + more;
    assert s[|s| - 1] != 0;
    assert forall k | 0 <= k < |s| :: q[k] == s[k];
    if j + 2 < |s| {
      assert !(s[j] == 0 && s[j + 1] == 0 && s[j + 2] == 1);
      if j + 3 < |s| {
        assert !(s[j + 1] == 0 && s[j + 2] == 0 && s[j + 3] == 1);
      }
    }
  }

  lemma StartLenFrom(data: seq<byte>, i: nat, k: nat)
    requires i <= |data|
    ensures StartLen(data, i + k) == StartLen(data[i..], k)
  {
  }

  lemma Behind(data: seq<byte>, i: nat, a: seq<byte>, b: seq<byte>)
    requires i <= |data| && data[i..] == a + b
    ensures i + |a| <= |data| && data[i + |a|..] == b && data[i..i + |a|] == a
  {
    assert data[i..][|a|..] == b && data[i..][..|a|] == a;
  }

  /** Where the next unit, or the end, is found. */
  lemma {:induction false} NextUnit(data: seq<byte>, i: nat, u: Unit, later: seq<Unit>, j: nat)
    requires Printable(u) && AllPrintable(later) && i <= |data| && data[i..] == Body(u) + Wire(later) && j <= |Body(u)|
    ensures i + |Body(u)| <= |data| && NextStart(data, i + j) == i + |Body(u)|
    decreases |Body(u)| - j
  {
    hide Body, Printable;
    var n := |Body(u)|;
    StartLenFrom(data, i, j);
    if j < n {
      NoStartInside(u, Wire(later), j);
      NextUnit(data, i, u, later, j + 1);
      NoStartMeans(data, i + j);
    } else {
      Behind(data, i, Body(u), Wire(later));
      OpensOrEnds(data, i + n, later);
    }
  }

  lemma NoStartMeans(data: seq<byte>, i: nat)
    requires i < |data| && StartLen(data, i) == 0
    ensures NextStart(data, i) == NextStart(data, i + 1)
  {
  }

  lemma OpeningFound(long: bool, more: seq<byte>)
    ensures StartLen(Opening(long) + more, 0) == |Opening(long)|
  {
  }

  lemma FoundHere(data: seq<byte>, i: nat)
    requires i <= |data| && (i < |data| ==> StartLen(data, i) != 0)
    ensures NextStart(data, i) == i
  {
    hide StartLen;
  }

  lemma OpensOrEnds(data: seq<byte>, i: nat, us: seq<Unit>)
    requires AllPrintable(us) && i <= |data| && data[i..] == Wire(us)
    ensures NextStart(data, i) == i && (us != [] ==> StartLen(data, i) == |Opening(us[0].long)|)
  {
    hide Body, Printable, StartLen, NextStart, Opening, Wire;
    if us == [] {
      NothingWire(us);
    } else {
      WireFirst(us, 1);
      StartLenFrom(data, i, 0);
      Associates(Opening(us[0].long), Body(us[0]), Wire(us[1..]));
      OpeningFound(us[0].long, Body(us[0]) + Wire(us[1..]));
    }
    FoundHere(data, i);
  }

  lemma Associates(a: seq<byte>, b: seq<byte>, c: seq<byte>)
    ensures a + b + c == a + (b + c)
  {
  }

  /** From an index on, the data are these. */
  ghost predicate Left(data: seq<byte>, i: nat, s: seq<byte>) {
    i <= |data| && data[i..] == s
  }

  lemma HeadRead(data: seq<byte>, i: nat, u: Unit)
    requires Printable(u) && i < |data| && data[i] == Body(u)[0]
    ensures data[i] < 128 && data[i] % 32 == u.kind
  {
    DivModUnique(u.importance * 32 + u.kind, 32, u.importance, u.kind);
  }

  lemma BodyFirst(u: Unit)
    requires Printable(u)
    ensures Body(u) != []
  {
  }

  /** A unit is found with its type, and ends where the next one begins. */
  lemma UnitRead(data: seq<byte>, i: nat, us: seq<Unit>)
    requires AllPrintable(us) && us != [] && i <= |data| && data[i..] == Wire(us)
    ensures i < |data| && StartLen(data, i) != 0 && !Forbidden(data, i)
    ensures UnitType(data, i) == us[0].kind
    ensures UnitEnd(data, i) == i + |UnitWire(us[0])| <= |data| && data[i + |UnitWire(us[0])|..] == Wire(us[1..])
  {
    var u, n, later := us[0], |Opening(us[0].long)|, Wire(us[1..]);
    assert Wire(us) == UnitWire(u) + later;
    OpensOrEnds(data, i, us);
    hide Wire, Body, Printable, Opening, StartLen, NextStart;
    Associates(Opening(u.long), Body(u), later);
    BodyFirst(u);
    Behind(data, i, Opening(u.long), Body(u) + later);
    Behind(data, i + n, Body(u), later);
    NextUnit(data, i + n, u, us[1..], 0);
    assert data[i + n] == data[i + n..i + n + |Body(u)|][0];
    HeadRead(data, i + n, u);
  }

  // Frames

  /** What one unit does to the frame in progress. */
  lemma UnitStep(data: seq<byte>, start: nat, i: nat, key: bool, us: seq<Unit>)
    requires AllPrintable(us) && us != [] && start <= i && Left(data, i, Wire(us))
    ensures var next, key' := i + |UnitWire(us[0])|, key || us[0].kind == KEY_SLICE;
            && next <= |data| && Left(data, next, Wire(us[1..]))
            && ParseFrom(data, start, i, key) == if Slice(us[0]) then Frame(next, key') else ParseFrom(data, start, next, key')
  {
    hide ParseFrom, UnitWire, Wire, StartLen, Forbidden, UnitType, UnitEnd, Printable;
    UnitRead(data, i, us);
    ParseStep(data, start, i, key);
  }

  lemma FrameEnds(data: seq<byte>, start: nat, i: nat, key: bool)
    requires start < i && Left(data, i, [])
    ensures ParseFrom(data, start, i, key) == Frame(i, key)
  {
    assert i == |data|;
    ParseEnd(data, start, key);
    hide ParseFrom;
  }

  /** The bytes of the first frame, and whether it is a key frame. */
  ghost function FirstBytes(us: seq<Unit>): (seq<byte>, bool)
    requires AllPrintable(us) && us != []
  {
    if Slice(us[0]) || |us| == 1 then (UnitWire(us[0]), us[0].kind == KEY_SLICE) else
    var later := FirstBytes(us[1..]);
    (UnitWire(us[0]) + later.0, later.1)
  }

  lemma {:induction false} FirstBytesAre(us: seq<Unit>)
    requires AllPrintable(us) && us != []
    ensures var n := FirstFrame(us); FirstBytes(us) == (Wire(us[..n]), us[n - 1].kind == KEY_SLICE)
  {
    hide UnitWire, Printable;
    var n := FirstFrame(us);
    WireFirst(us, n);
    assert us[..n][1..] == us[1..][..n - 1];
    if Slice(us[0]) || |us| == 1 {
      assert |us| == 1 ==> us[1..] == [];
      NothingWire(us[..n][1..]);
      assert UnitWire(us[0]) + [] == UnitWire(us[0]);
    } else {
      FirstBytesAre(us[1..]);
    }
    hide Wire;
  }

  lemma {:induction false} FrameRead(data: seq<byte>, start: nat, i: nat, key: bool, us: seq<Unit>)
    requires AllPrintable(us) && us != [] && start <= i <= |data| && Left(data, i, Wire(us))
    ensures ParseFrom(data, start, i, key) == Frame(i + |FirstBytes(us).0|, key || FirstBytes(us).1)
    decreases |us|
  {
    hide ParseFrom, UnitWire, Wire, Printable, Left;
    UnitStep(data, start, i, key, us);
    UnitLength(us[0]);
    var next := i + |UnitWire(us[0])|;
    if !Slice(us[0]) {
      if |us| > 1 {
        FrameRead(data, start, next, key, us[1..]);
      } else {
        NothingWire(us[1..]);
        FrameEnds(data, start, next, key);
      }
    }
  }

  lemma UnitLength(u: Unit)
    requires Printable(u)
    ensures |UnitWire(u)| > 0
  {
  }

  lemma {:induction false} WireSplit(us: seq<Unit>, n: nat)
    requires AllPrintable(us) && n <= |us|
    ensures Wire(us) == Wire(us[..n]) + Wire(us[n..])
  {
    hide UnitWire, Printable;
    if n == 0 {
      assert us[n..] == us;
    } else {
      WireSplit(us[1..], n - 1);
      assert us[..n][1..] == us[1..][..n - 1] && us[n..] == us[1..][n - 1..];
    }
  }

  lemma NothingWire(us: seq<Unit>)
    requires us == []
    ensures Wire(us) == []
  {
  }

  lemma WireFirst(us: seq<Unit>, n: nat)
    requires AllPrintable(us) && 0 < n <= |us|
    ensures Wire(us[..n]) == UnitWire(us[0]) + Wire(us[..n][1..])
    ensures |UnitWire(us[0])| > 0 && Wire(us) == UnitWire(us[0]) + Wire(us[1..])
  {
  }

  lemma CutFirst(us: seq<Unit>)
    requires AllPrintable(us) && us != []
    ensures var n := FirstFrame(us);
            Cut(us) == [Encoded(Wire(us[..n]), us[n - 1].kind == KEY_SLICE)] + Cut(us[n..])
  {
    hide Wire, FirstFrame;
  }

  lemma NothingFramed(data: seq<byte>, start: nat)
    requires start == |data|
    ensures Frames(data, start) == ([], true)
  {
    ParseEnd(data, start, false);
    hide ParseFrom;
  }

  /** Every payload printed from units is cut into exactly their frames, without error. */
  lemma {:induction false} UnitsAreFramed(data: seq<byte>, start: nat, us: seq<Unit>)
    requires AllPrintable(us) && start <= |data| && data[start..] == Wire(us)
    ensures Frames(data, start) == (Cut(us), true)
    decreases |us|
  {
    hide Frames, ParseFrom, Wire, Printable, FirstFrame;
    if us == [] {
      NothingWire(us);
      NothingFramed(data, start);
    } else {
      hide Cut;
      FrameRead(data, start, start, false, us);
      FirstBytesAre(us);
      FramesFrom(data, start);
      var n := FirstFrame(us);
      WireSplit(us, n);
      CutFirst(us);
      Behind(data, start, Wire(us[..n]), Wire(us[n..]));
      UnitsAreFramed(data, start + |Wire(us[..n])|, us[n..]);
    }
  }
}
