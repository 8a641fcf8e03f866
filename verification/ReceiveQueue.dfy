/** The receive half of the socket wrapper: a compacting, growing buffer that
    refines an unbounded first-in first-out queue of bytes with un-read. */
module ReceiveQueue {
  import opened Bytes

  const INITIAL_RQ_SIZE: nat := 1024 * 1024 * 4
  const MAX_RQ_GROW_SIZE: nat := 40 * 1024 * 1024

  /** The abstract queue: what has been read so far, and what is still unread. */
  datatype Fifo = Fifo(consumed: seq<byte>, unread: seq<byte>) {
    function Arrive(message: seq<byte>): Fifo {
      Fifo(consumed, unread + message)
    }

    function Take(n: nat): Fifo
      requires n <= |unread|
    {
      Fifo(consumed + unread[..n], unread[n..])
    }

    function GoBack(n: nat): Fifo
      requires n <= |consumed|
    {
      Fifo(consumed[..|consumed| - n], consumed[|consumed| - n..] + unread)
    }

    function All(): seq<byte> {
      consumed + unread
    }
  }

  datatype Op = Arrival(message: seq<byte>) | Read(n: nat) | Unread(n: nat)

  /** The operations whose sizes make sense for the queue they meet. */
  ghost predicate Runnable(q: Fifo, ops: seq<Op>)
    decreases ops
  {
    ops == [] ||
    match ops[0]
    case Arrival(m) => Runnable(q.Arrive(m), ops[1..])
    case Read(n) => n <= |q.unread| && Runnable(q.Take(n), ops[1..])
    case Unread(n) => n <= |q.consumed| && Runnable(q.GoBack(n), ops[1..])
  }

  ghost function FifoRun(q: Fifo, ops: seq<Op>): Fifo
    requires Runnable(q, ops)
    decreases ops
  {
    if ops == [] then q else
    match ops[0]
    case Arrival(m) => FifoRun(q.Arrive(m), ops[1..])
    case Read(n) => FifoRun(q.Take(n), ops[1..])
    case Unread(n) => FifoRun(q.GoBack(n), ops[1..])
  }

  ghost function Arrivals(ops: seq<Op>): seq<byte>
  {
    if ops == [] then [] else
    (if ops[0].Arrival? then ops[0].message else []) + Arrivals(ops[1..])
  }

  /** Over any run, the bytes consumed followed by the bytes unread are the
      bytes received: nothing is lost, duplicated or reordered. */
  lemma {:induction false} FifoKeepsEveryByte(q: Fifo, ops: seq<Op>)
    requires Runnable(q, ops)
    ensures FifoRun(q, ops).All() == q.All() + Arrivals(ops)
    decreases ops
  {
    if ops == [] {
      assert q.All() + Arrivals(ops) == q.All();
    } else {
      match ops[0]
      case Arrival(m) =>
        FifoKeepsEveryByte(q.Arrive(m), ops[1..]);
        assert q.Arrive(m).All() == q.All() + m;
        assert q.All() + m + Arrivals(ops[1..]) == q.All() + (m + Arrivals(ops[1..]));
      case Read(n) =>
        FifoKeepsEveryByte(q.Take(n), ops[1..]);
        assert q.Take(n).All() == q.All();
        assert [] + Arrivals(ops[1..]) == Arrivals(ops[1..]);
      case Unread(n) =>
        FifoKeepsEveryByte(q.GoBack(n), ops[1..]);
        assert q.GoBack(n).All() == q.All();
        assert [] + Arrivals(ops[1..]) == Arrivals(ops[1..]);
    }
  }

  /** As callers un-read: only what has been read since the last arrival. */
  ghost predicate Sensible(q: Fifo, recent: nat, ops: seq<Op>)
    decreases ops
  {
    ops == [] ||
    match ops[0]
    case Arrival(m) => Sensible(q.Arrive(m), 0, ops[1..])
    case Read(n) => n <= |q.unread| && Sensible(q.Take(n), recent + n, ops[1..])
    case Unread(n) => n <= recent && n <= |q.consumed| && Sensible(q.GoBack(n), recent - n, ops[1..])
  }

  lemma {:induction false} SensibleRuns(q: Fifo, recent: nat, ops: seq<Op>)
    requires Sensible(q, recent, ops)
    ensures Runnable(q, ops)
    decreases ops
  {
    if ops != [] {
      match ops[0]
      case Arrival(m) => SensibleRuns(q.Arrive(m), 0, ops[1..]);
      case Read(n) => SensibleRuns(q.Take(n), recent + n, ops[1..]);
      case Unread(n) => SensibleRuns(q.GoBack(n), recent - n, ops[1..]);
    }
  }

  /** Some message arrives when there is no room for it. */
  ghost predicate Overflows(q: Fifo, ops: seq<Op>)
    requires Runnable(q, ops)
    decreases ops
  {
    ops != [] &&
    match ops[0]
    case Arrival(m) => |q.unread| + |m| > MAX_RQ_GROW_SIZE || Overflows(q.Arrive(m), ops[1..])
    case Read(n) => Overflows(q.Take(n), ops[1..])
    case Unread(n) => Overflows(q.GoBack(n), ops[1..])
  }

  /** Un-reading gives back exactly the last bytes taken. */
  lemma GoBackUndoesTake(q: Fifo, n: nat)
    requires n <= |q.unread|
    ensures q.Take(n).GoBack(n) == q
  {
    var t := q.Take(n);
    assert t.consumed[|t.consumed| - n..] + t.unread == q.unread;
    assert t.consumed[..|t.consumed| - n] == q.consumed;
  }

  /** A 32-bit signed left shift of a byte, as the source computes it. */
  function ShiftLeft(v: byte, bytes: nat): int
    requires bytes < 4
  {
    var n := v * Pow256(bytes) % TWO_32;
    if n < TWO_31 then n else n - TWO_32
  }

  lemma ShiftLeftResidue(v: byte, bytes: nat)
    requires bytes < 4
    ensures (ShiftLeft(v, bytes) - v * Pow256(bytes)) % TWO_32 == 0
  {
    assert Pow256(0) == 1 && Pow256(1) == TWO_8;
    assert Pow256(2) == TWO_16 && Pow256(3) == TWO_24;
    var n := v * Pow256(bytes);
    assert 0 <= n < TWO_32 by {
      if bytes == 0 {} else if bytes == 1 {} else if bytes == 2 {} else {}
    }
    DivModUnique(n, TWO_32, 0, n);
    DivModUnique(-TWO_32, TWO_32, -1, 0);
  }

  /** `res` agrees modulo 2^32 with the digits s, moved up by `left` places. */
  ghost predicate Partial(res: int, s: seq<byte>, left: nat)
  {
    (res - BigEndian(s) * Pow256(left)) % TWO_32 == 0
  }

  lemma PartialStep(res: int, s: seq<byte>, b: byte, left: nat)
    requires left < 4 && Partial(res, s, left + 1)
    ensures Partial(res + ShiftLeft(b, left), s + [b], left)
  {
    ShiftLeftResidue(b, left);
    assert (s + [b])[..|s|] == s;
    var x, p := BigEndian(s), Pow256(left);
    assert BigEndian(s + [b]) == x * TWO_8 + b && Pow256(left + 1) == p * TWO_8;
    hide BigEndian, Pow256, ShiftLeft;
    ResiduesAdd(res - x * (p * TWO_8), ShiftLeft(b, left) - b * p);
    Distribute(x, b, p);
  }

  lemma ResiduesAdd(a: int, b: int)
    requires a % TWO_32 == 0 && b % TWO_32 == 0
    ensures (a + b) % TWO_32 == 0
  {
  }

  lemma Distribute(x: int, b: int, p: int)
    ensures (x * TWO_8 + b) * p == x * (p * TWO_8) + b * p
  {
  }

  lemma PartialEnd(res: int, s: seq<byte>)
    requires |s| <= 4 && Partial(res, s, 0)
    ensures res % TWO_32 == BigEndian(s)
  {
    var v := BigEndian(s);
    assert v < TWO_32 by {
      BigEndianBound(s);
      assert Pow256(0) == 1 && Pow256(1) == TWO_8;
      assert Pow256(2) == TWO_16 && Pow256(3) == TWO_24 && Pow256(4) == TWO_32;
    }
    assert v * Pow256(0) == v;
    DivModUnique(res, TWO_32, (res - v) / TWO_32, v);
  }

  class ReceiveBuffer {
    var rQ: array<byte>
    var rQi: nat
    var rQlen: nat
    var rQbufferSize: nat
    ghost var consumed: seq<byte>   // every byte read, less those read back
    ghost var unread: seq<byte>     // every byte still to be read

    /** The indices stay inside a buffer of bounded size, which holds the unread
        bytes and, before them, the bytes that can still be read back. */
    ghost predicate Valid()
      reads this, rQ
    {
      rQi <= rQlen <= rQ.Length == rQbufferSize <= MAX_RQ_GROW_SIZE &&
      unread == rQ[rQi..rQlen] &&
      rQi <= |consumed| && consumed[|consumed| - rQi..] == rQ[..rQi]
    }

    ghost function Queue(): Fifo
      reads this
    {
      Fifo(consumed, unread)
    }

    constructor ()
      ensures Valid() && fresh(rQ) && Queue() == Fifo([], [])
    {
      rQ := new byte[INITIAL_RQ_SIZE](_ => 0);
      rQbufferSize := INITIAL_RQ_SIZE;
      rQi, rQlen, consumed, unread := 0, 0, [], [];
    }

    method Length() returns (n: nat)
      requires Valid()
      ensures n == |unread|
    {
      n := rQlen - rQi;
    }

    method Peek8() returns (b: byte)
      requires Valid() && |unread| >= 1
      ensures b == unread[0]
    {
      b := rQ[rQi];
    }

    method PeekBytes(n: nat) returns (s: seq<byte>)
      requires Valid() && n <= |unread|
      ensures s == unread[..n]
    {
      s := rQ[rQi..rQi + n];
    }

    method SkipBytes(n: nat)
      requires Valid() && n <= |unread|
      modifies this`rQi, this`consumed, this`unread
      ensures Valid() && Queue() == old(Queue()).Take(n)
      ensures rQi == old(rQi) + n
    {
      rQi := rQi + n;
      Account(n);
    }

    method ShiftBytes(n: nat) returns (s: seq<byte>)
      requires Valid() && n <= |unread|
      modifies this`rQi, this`consumed, this`unread
      ensures Valid() && Queue() == old(Queue()).Take(n)
      ensures rQi == old(rQi) + n
      ensures s == old(unread)[..n]
    {
      SkipBytes(n);
      s := rQ[rQi - n..rQi];
    }

    /** The big-endian read, one signed shift and one addition a byte. */
    method Shift(bytes: nat) returns (value: nat)
      requires Valid() && bytes <= 4 && bytes <= |unread|
      modifies this`rQi, this`consumed, this`unread
      ensures Valid() && Queue() == old(Queue()).Take(bytes)
      ensures rQi == old(rQi) + bytes
      ensures value == BigEndian(old(unread)[..bytes])
    {
      ghost var start := rQi;
      var res := SumShifts(bytes);
      value := res % TWO_32;
      PartialEnd(res, rQ[start..rQi]);
      assert rQ[start..rQlen][..bytes] == rQ[start..rQi];
      Account(bytes);
    }

    method SumShifts(bytes: nat) returns (res: int)
      requires bytes <= 4 && rQi + bytes <= rQ.Length
      modifies this`rQi
      ensures rQi == old(rQi) + bytes
      ensures Partial(res, rQ[old(rQi)..rQi], 0)
    {
      ghost var start := rQi;
      res := 0;
      var b := bytes;
      while b > 0
        invariant 0 <= b <= bytes && rQi == start + (bytes - b)
        invariant Partial(res, rQ[start..rQi], b)
      {
        b := b - 1;
        ghost var s := rQ[start..rQi];
        assert s + [rQ[rQi]] == rQ[start..rQi + 1];
        PartialStep(res, s, rQ[rQi], b);
        res := res + ShiftLeft(rQ[rQi], b);
        rQi := rQi + 1;
      }
    }

    /** Books the n bytes just passed over as consumed. */
    ghost method Account(n: nat)
      requires n <= rQi <= rQlen <= rQ.Length == rQbufferSize <= MAX_RQ_GROW_SIZE
      requires unread == rQ[rQi - n..rQlen]
      requires rQi - n <= |consumed| && consumed[|consumed| - (rQi - n)..] == rQ[..rQi - n]
      modifies this`consumed, this`unread
      ensures Valid() && Queue() == old(Queue()).Take(n)
    {
      assert unread[..n] == rQ[rQi - n..rQi];
      consumed := consumed + unread[..n];
      unread := unread[n..];
      assert consumed[|consumed| - rQi..] == rQ[..rQi];
    }

    /** True when the caller must wait for more bytes; the bytes to go back over
        are then unread again. Fails exactly when they are no longer buffered. */
    method Wait(num: nat, goback: nat) returns (r: Option<bool>)
      requires Valid()
      modifies this`rQi, this`consumed, this`unread
      ensures Valid()
      ensures r == None <==> |old(unread)| < num && goback > old(rQi)
      ensures r == Some(true) <==> |old(unread)| < num && goback <= old(rQi)
      ensures r == Some(true) ==> goback <= |old(consumed)| && Queue() == old(Queue()).GoBack(goback)
      ensures r != Some(true) || goback == 0 ==> Queue() == old(Queue())
    {
      if rQlen - rQi < num {
        if goback != 0 {
          if rQi < goback {
            return None;
          }
          GoBack(goback);
        } else {
          assert old(Queue()).GoBack(0) == old(Queue());
        }
        return Some(true);
      }
      return Some(false);
    }

    method GoBack(n: nat)
      requires Valid() && n <= rQi
      modifies this`rQi, this`consumed, this`unread
      ensures Valid() && Queue() == old(Queue()).GoBack(n) && rQi == old(rQi) - n
    {
      ghost var all := rQ[..rQi];
      BackSlices(consumed, all, n);
      rQi := rQi - n;
      unread := consumed[|consumed| - n..] + unread;
      consumed := consumed[..|consumed| - n];
      assert all[|all| - n..] == rQ[rQi..rQi + n] && all[..rQi] == rQ[..rQi];
      assert unread == rQ[rQi..rQlen];
    }

    /** Moves the unread bytes to the start of the buffer. */
    method Compact()
      requires Valid()
      modifies this`rQi, this`rQlen, rQ
      ensures Valid() && rQi == 0
    {
      forall k | 0 <= k < rQlen - rQi {
        rQ[k] := rQ[rQi + k];
      }
      rQlen := rQlen - rQi;
      rQi := 0;
      assert rQ[rQi..rQlen] == unread;
    }

    /** Moves the unread bytes to the start of a new buffer. */
    method Reallocate(size: nat)
      requires Valid() && rQbufferSize <= size <= MAX_RQ_GROW_SIZE
      modifies this`rQ, this`rQi, this`rQlen, this`rQbufferSize
      ensures Valid() && rQi == 0
      ensures fresh(rQ) && rQbufferSize == size
    {
      var bigger := new byte[size](_ => 0);
      forall k | 0 <= k < rQlen - rQi {
        bigger[k] := rQ[rQi + k];
      }
      rQ := bigger;
      rQbufferSize := size;
      rQlen := rQlen - rQi;
      rQi := 0;
      assert rQ[rQi..rQlen] == unread;
    }

    /** Compacts, and grows when less than seven eighths would stay free. */
    method ExpandCompact(minFit: nat) returns (ok: bool)
      requires Valid()
      modifies this`rQ, this`rQi, this`rQlen, this`rQbufferSize, rQ
      ensures ok <==> |unread| + minFit <= MAX_RQ_GROW_SIZE
      ensures ok ==> Valid() && (rQ == old(rQ) || fresh(rQ))
      ensures ok ==> rQlen + minFit <= rQbufferSize && rQi == 0
      ensures ok ==> old(rQbufferSize) <= rQbufferSize
    {
      var required := (rQlen - rQi + minFit) * 8;
      var resizeNeeded := rQbufferSize < required;
      var size := rQbufferSize;
      if resizeNeeded {
        size := if rQbufferSize * 2 > required then rQbufferSize * 2 else required;
      }
      if size > MAX_RQ_GROW_SIZE {
        size := MAX_RQ_GROW_SIZE;
        if size - (rQlen - rQi) < minFit {
          rQbufferSize := size;  // the size field stays ahead of the buffer
          return false;
        }
      }
      if resizeNeeded {
        Reallocate(size);
      } else {
        Compact();
      }
      return true;
    }

    method Append(message: seq<byte>)
      requires Valid() && rQlen + |message| <= rQ.Length
      modifies this`rQlen, this`unread, rQ
      ensures Valid() && unread == old(unread) + message
    {
      ghost var before := rQ[..rQi];
      forall k | 0 <= k < |message| {
        rQ[rQlen + k] := message[k];
      }
      rQlen := rQlen + |message|;
      unread := unread + message;
      assert rQ[rQi..rQlen] == unread;
      assert rQ[..rQi] == before;
    }

    /** One arrival. Fails exactly when the unread bytes and the message together
        exceed the largest buffer; the connection is then over. */
    method ReceiveMessage(message: seq<byte>) returns (ok: bool)
      requires Valid()
      modifies this, rQ
      ensures ok <==> |old(unread)| + |message| <= MAX_RQ_GROW_SIZE
      ensures ok ==> Valid() && Queue() == old(Queue()).Arrive(message)
      ensures ok ==> rQ == old(rQ) || fresh(rQ)
    {
      if rQlen == rQi {
        rQlen := 0;
        rQi := 0;
      }
      if |message| > rQbufferSize - rQlen {
        ok := ExpandCompact(|message|);
        if !ok {
          return;
        }
      }
      Append(message);
      return true;
    }

    /** One operation; `recent` bytes have been read since the last arrival. */
    method Perform(op: Op, ghost recent: nat, ghost later: seq<Op>) returns (ok: bool, ghost now: nat)
      requires Valid() && recent <= rQi && Sensible(Queue(), recent, [op] + later)
      modifies this, rQ
      ensures ok ==> Valid() && now <= rQi && (rQ == old(rQ) || fresh(rQ))
      ensures ok ==> Sensible(Queue(), now, later) && Runnable(old(Queue()), [op] + later) && Runnable(Queue(), later)
      ensures ok ==> FifoRun(old(Queue()), [op] + later) == FifoRun(Queue(), later)
      ensures ok ==> (Overflows(old(Queue()), [op] + later) <==> Overflows(Queue(), later))
      ensures !ok ==> Runnable(old(Queue()), [op] + later) && Overflows(old(Queue()), [op] + later)
    {
      ghost var q := Queue();
      OpFits(q, recent, op, later);
      hide Sensible, Runnable, FifoRun, Overflows, Fifo.Take, Fifo.GoBack, Fifo.Arrive;
      ok, now := true, 0;
      match op {
        case Arrival(m) =>
          ok := ReceiveMessage(m);
          if !ok {
            return;
          }
        case Read(n) =>
          SkipBytes(n);
          now := recent + n;
        case Unread(n) =>
          GoBack(n);
          now := recent - n;
      }
      OpStep(q, recent, op, later, Queue(), now);
    }

    /** Any number of operations: the buffer ends as the unbounded queue does, with
        every byte accounted for, unless a message finds no room. */
    method PerformAll(ops: seq<Op>) returns (ok: bool)
      requires Valid() && Sensible(Queue(), 0, ops)
      modifies this, rQ
      ensures Runnable(old(Queue()), ops) && (ok <==> !Overflows(old(Queue()), ops))
      ensures ok ==> Valid() && Queue() == FifoRun(old(Queue()), ops)
      ensures ok ==> consumed + unread == old(consumed + unread) + Arrivals(ops)
    {
      SensibleRuns(Queue(), 0, ops);
      FifoKeepsEveryByte(Queue(), ops);
      ghost var q0 := Queue();
      ghost var recent: nat := 0;
      var i := 0;
      assert ops[0..] == ops;
      hide Sensible, Runnable, FifoRun, Overflows, Fifo.Take, Fifo.GoBack, Fifo.Arrive;
      while i < |ops|
        invariant 0 <= i <= |ops| && Valid() && recent <= rQi && Sensible(Queue(), recent, ops[i..])
        invariant Runnable(q0, ops) && Runnable(Queue(), ops[i..])
        invariant FifoRun(Queue(), ops[i..]) == FifoRun(q0, ops)
        invariant Overflows(Queue(), ops[i..]) <==> Overflows(q0, ops)
        invariant rQ == old(rQ) || fresh(rQ)
      {
        NextOf(ops, i);
        ok, recent := Perform(ops[i], recent, ops[i + 1..]);
        if !ok {
          return;
        }
        i := i + 1;
      }
      NothingLeft(Queue(), ops[i..]);
      return true;
    }
  }

  lemma BackSlices(was: seq<byte>, all: seq<byte>, n: nat)
    requires n <= |all| <= |was| && was[|was| - |all|..] == all
    ensures was[|was| - n..] == all[|all| - n..]
    ensures was[..|was| - n][|was| - |all|..] == all[..|all| - n]
  {
  }

  lemma OpFits(q: Fifo, recent: nat, op: Op, later: seq<Op>)
    requires Sensible(q, recent, [op] + later)
    ensures Runnable(q, [op] + later)
    ensures match op
            case Arrival(m) => |q.unread| + |m| > MAX_RQ_GROW_SIZE ==> Overflows(q, [op] + later)
            case Read(n) => n <= |q.unread|
            case Unread(n) => n <= recent && n <= |q.consumed|
  {
    SensibleRuns(q, recent, [op] + later);
  }

  lemma OpStep(q: Fifo, recent: nat, op: Op, later: seq<Op>, after: Fifo, now: nat)
    requires Sensible(q, recent, [op] + later)
    requires match op
             case Arrival(m) => |q.unread| + |m| <= MAX_RQ_GROW_SIZE && after == q.Arrive(m) && now == 0
             case Read(n) => n <= |q.unread| && after == q.Take(n) && now == recent + n
             case Unread(n) => n <= recent && n <= |q.consumed| && after == q.GoBack(n) && now == recent - n
    ensures Runnable(q, [op] + later) && Sensible(after, now, later) && Runnable(after, later)
    ensures FifoRun(q, [op] + later) == FifoRun(after, later)
    ensures Overflows(q, [op] + later) <==> Overflows(after, later)
  {
    hide Fifo.Take, Fifo.GoBack, Fifo.Arrive;
    SensibleRuns(q, recent, [op] + later);
    assert ([op] + later)[1..] == later;
  }

  lemma NextOf(ops: seq<Op>, i: nat)
    requires i < |ops|
    ensures ops[i..] == [ops[i]] + ops[i + 1..]
  {
  }

  lemma NothingLeft(q: Fifo, ops: seq<Op>)
    requires Runnable(q, ops) && ops == []
    ensures FifoRun(q, ops) == q && !Overflows(q, ops)
  {
  }
}
