/** Cutting an H.264 payload into frames: units up to and with a slice. */
module H264Frames {
  import opened Bytes

  /** The length of the start sequence at an index, or 0. */
  function StartLen(data: seq<byte>, i: nat): (n: nat)
    ensures n == 0 || (n in {3, 4} && i + n <= |data|)
  {
    if i + 4 <= |data| && data[i] == 0 && data[i + 1] == 0 && data[i + 2] == 0 && data[i + 3] == 1 then 4
    else if i + 3 <= |data| && data[i] == 0 && data[i + 1] == 0 && data[i + 2] == 1 then 3
    else 0
  }

  /** The first start sequence from an index on, or the end. */
  function NextStart(data: seq<byte>, i: nat): (k: nat)
    requires i <= |data|
    ensures i <= k <= |data|
    ensures k < |data| ==> StartLen(data, k) != 0
    ensures forall j | i <= j < k :: StartLen(data, j) == 0
    decreases |data| - i
  {
    if i == |data| || StartLen(data, i) != 0 then i else NextStart(data, i + 1)
  }

  /** Where the unit that starts at an index ends. */
  function UnitEnd(data: seq<byte>, i: nat): (e: nat)
    requires StartLen(data, i) != 0
    ensures i < e <= |data|
  {
    NextStart(data, i + StartLen(data, i))
  }

  /** The first byte of a unit; a unit cut off after its start sequence has none. */
  function UnitByte(data: seq<byte>, i: nat): nat
    requires StartLen(data, i) != 0
  {
    var k := i + StartLen(data, i);
    if k < |data| then data[k] else 0
  }

  /** The forbidden bit is set. */
  predicate Forbidden(data: seq<byte>, i: nat)
    requires StartLen(data, i) != 0
  {
    UnitByte(data, i) >= 128
  }

  function UnitType(data: seq<byte>, i: nat): nat
    requires StartLen(data, i) != 0
  {
    UnitByte(data, i) % 32
  }

  predicate IsSlice(unitType: nat) {
    unitType == 1 || unitType == 5
  }

  /** One call of parse: a frame up to an index, nothing left, or an error. */
  datatype Parsed = Frame(end: nat, key: bool) | NoMore | Invalid

  /** Parsing a frame that began at `start` and has been read up to i. */
  function ParseFrom(data: seq<byte>, start: nat, i: nat, key: bool): (r: Parsed)
    requires start <= i <= |data|
    ensures r.Frame? ==> start < r.end <= |data|
    ensures r.NoMore? ==> start == i == |data|
    decreases |data| - i
  {
    if i == |data| then if i == start then NoMore else Frame(i, key)
    else if StartLen(data, i) == 0 || Forbidden(data, i) then Invalid
    else
      var key' := key || UnitType(data, i) == 5;
      if IsSlice(UnitType(data, i)) then Frame(UnitEnd(data, i), key')
      else ParseFrom(data, start, UnitEnd(data, i), key')
  }

  lemma ParseStep(data: seq<byte>, start: nat, i: nat, key: bool)
    requires start <= i < |data|
    ensures ParseFrom(data, start, i, key) ==
              if StartLen(data, i) == 0 || Forbidden(data, i) then Invalid
              else if IsSlice(UnitType(data, i)) then Frame(UnitEnd(data, i), key || UnitType(data, i) == 5)
              else ParseFrom(data, start, UnitEnd(data, i), key || UnitType(data, i) == 5)
  {
  }

  lemma ParseEnd(data: seq<byte>, start: nat, key: bool)
    requires start <= |data|
    ensures ParseFrom(data, start, |data|, key) == if start == |data| then NoMore else Frame(|data|, key)
  {
  }

  function Parse(data: seq<byte>, start: nat): Parsed
    requires start <= |data|
  {
    ParseFrom(data, start, start, false)
  }

  /** A frame: its bytes, and whether a decoder can begin with it. */
  datatype Encoded = Encoded(frame: seq<byte>, key: bool)

  /** The frames from an index on, up to the first error. */
  function Frames(data: seq<byte>, start: nat): (r: (seq<Encoded>, bool))
    requires start <= |data|
    decreases |data| - start
  {
    match Parse(data, start)
    case NoMore => ([], true)
    case Invalid => ([], false)
    case Frame(end, key) =>
      var (later, ok) := Frames(data, end);
      ([Encoded(data[start..end], key)] + later, ok)
  }

  lemma FramesFrom(data: seq<byte>, start: nat)
    requires start <= |data|
    ensures var p := Parse(data, start);
            Frames(data, start) == if p.Frame? then ([Encoded(data[start..p.end], p.key)] + Frames(data, p.end).0, Frames(data, p.end).1)
                                   else ([], p.NoMore?)
    ensures var p := Parse(data, start); p.Frame? ==> start < p.end <= |data|
  {
    hide ParseFrom;
  }

  function AllBytes(fs: seq<Encoded>): seq<byte> {
    if fs == [] then [] else fs[0].frame + AllBytes(fs[1..])
  }

  /** The frames of a payload without an error are consecutive, not empty, and
      together the whole payload. */
  lemma {:induction false} FramesMakePayload(data: seq<byte>, start: nat)
    requires start <= |data|
    ensures var (fs, ok) := Frames(data, start);
            (ok ==> AllBytes(fs) == data[start..]) && (forall i | 0 <= i < |fs| :: fs[i].frame != [])
    decreases |data| - start
  {
    var p := Parse(data, start);
    if p.Frame? {
      FramesMakePayload(data, p.end);
      assert data[start..] == data[start..p.end] + data[p.end..];
    }
  }

  /** The types of the units between two indices. */
  function Types(data: seq<byte>, i: nat, end: nat): seq<nat>
    requires i <= |data|
    decreases |data| - i
  {
    if i >= end || StartLen(data, i) == 0 then [] else [UnitType(data, i)] + Types(data, UnitEnd(data, i), end)
  }

  /** No slice but perhaps the last; and a key frame is one that ends with type 5. */
  ghost predicate SliceOnlyLast(types: seq<nat>, key: bool) {
    types != [] && (forall i | 0 <= i < |types| - 1 :: !IsSlice(types[i])) && (key <==> types[|types| - 1] == 5)
  }

  lemma {:induction false} FrameTypes(data: seq<byte>, start: nat, i: nat)
    requires start <= i < |data|
    ensures var p := ParseFrom(data, start, i, false);
            p.Frame? ==>
              var types := Types(data, i, p.end);
              i < p.end && SliceOnlyLast(types, p.key) && (p.end < |data| ==> IsSlice(types[|types| - 1]))
    decreases |data| - i
  {
    var p := ParseFrom(data, start, i, false);
    if p.Frame? {
      var next := UnitEnd(data, i);
      var t := UnitType(data, i);
      if IsSlice(t) {
        assert Types(data, next, next) == [];
      } else if next < |data| {
        FrameTypes(data, start, next);
        var later := Types(data, next, p.end);
        assert Types(data, i, p.end) == [t] + later;
        assert forall k | 0 < k < |[t] + later| :: ([t] + later)[k] == later[k - 1];
      } else {
        assert Types(data, next, next) == [];
      }
    }
  }

  /** Each frame holds at most one slice, at its end; only the last frame of a
      payload may lack one; and it is a key frame exactly if its slice is of type 5. */
  lemma FrameHoldsOneSlice(data: seq<byte>, start: nat)
    requires start < |data| && Parse(data, start).Frame?
    ensures var p := Parse(data, start);
            var types := Types(data, start, p.end);
            SliceOnlyLast(types, p.key) && (p.end < |data| ==> IsSlice(types[|types| - 1]))
  {
    FrameTypes(data, start, start);
  }

  /** A payload that begins with a start sequence fails only for a forbidden bit. */
  lemma {:induction false} OnlyForbiddenBitsFail(data: seq<byte>, start: nat, i: nat, key: bool)
    requires start <= i <= |data| && (i < |data| ==> StartLen(data, i) != 0)
    ensures ParseFrom(data, start, i, key).Invalid?
            ==> exists k :: i <= k < |data| && StartLen(data, k) != 0 && Forbidden(data, k)
    decreases |data| - i
  {
    if i < |data| && !Forbidden(data, i) && !IsSlice(UnitType(data, i)) {
      OnlyForbiddenBitsFail(data, start, UnitEnd(data, i), key || UnitType(data, i) == 5);
    }
  }

  class H264Parser {
    const data: seq<byte>
    var index: nat

    constructor (data: seq<byte>)
      ensures this.data == data && index == 0
    {
      this.data := data;
      index := 0;
    }

    /** The length of the data when there is no more start sequence. */
    method IndexOfNextNalUnit(from: nat) returns (k: nat)
      requires from <= |data|
      ensures k == NextStart(data, from)
    {
      k := from;
      while k < |data|
        invariant from <= k <= |data| && NextStart(data, k) == NextStart(data, from)
      {
        if StartLen(data, k) != 0 {
          return;
        }
        k := k + 1;
      }
    }

    method ParseNext() returns (r: Parsed, frame: seq<byte>)
      requires index <= |data|
      modifies this
      ensures index <= |data| && r == Parse(data, old(index))
      ensures r.Frame? ==> index == r.end && frame == data[old(index)..r.end]
      ensures r.NoMore? ==> index == old(index)
    {
      hide ParseFrom, StartLen, Forbidden, UnitType, IsSlice, NextStart;
      var startIndex := index;
      var isKey := false;
      frame := [];
      while index < |data|
        invariant startIndex <= index <= |data|
        invariant ParseFrom(data, startIndex, index, isKey) == Parse(data, startIndex)
        decreases |data| - index
      {
        ParseStep(data, startIndex, index, isKey);
        var startSequenceLen := StartLen(data, index);
        if startSequenceLen == 0 || Forbidden(data, index) {
          return Invalid, frame;
        }
        var unitType := UnitType(data, index);
        index := IndexOfNextNalUnit(index + startSequenceLen);
        if unitType == 5 {
          isKey := true;
        }
        if IsSlice(unitType) {
          return Frame(index, isKey), data[startIndex..index];
        }
      }
      ParseEnd(data, startIndex, isKey);
      if startIndex == index {
        return NoMore, frame;
      }
      return Frame(index, isKey), data[startIndex..index];
    }

    /** The decoder's loop over a payload. */
    method ParseAll() returns (frames: seq<Encoded>, ok: bool)
      requires index == 0
      modifies this
      ensures (frames, ok) == Frames(data, 0)
    {
      hide Frames;
      frames := [];
      ghost var goal := Frames(data, 0);
      assert [] + goal.0 == goal.0;
      while true
        invariant index <= |data|
        invariant goal == (frames + Frames(data, index).0, Frames(data, index).1)
        decreases |data| - index
      {
        FramesFrom(data, index);
        var parsed, frame := ParseNext();
        assert frames + [] == frames;
        if parsed.NoMore? {
          return frames, true;
        }
        if parsed.Invalid? {
          return frames, false;
        }
        ghost var later := Frames(data, index).0;
        assert frames + ([Encoded(frame, parsed.key)] + later) == frames + [Encoded(frame, parsed.key)] + later;
        frames := frames + [Encoded(frame, parsed.key)];
      }
    }
  }
}
