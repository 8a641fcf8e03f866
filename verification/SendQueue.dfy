/** The send half of the socket wrapper: a fixed-size buffer that is sent as a
    frame whenever the next push would not fit. */
module SendQueue {
  import opened Bytes

  const SQ_BUFFER_SIZE: nat := 1024 * 10

  class SendBuffer {
    var sQ: array<byte>
    var sQlen: nat
    var open: bool                      // the channel's ready state
    ghost var frames: seq<seq<byte>>    // every frame handed to the channel

    ghost var earlier: seq<byte>        // the bytes of the messages before this one
    ghost var message: seq<byte>        // the bytes of this message so far

    /** Every byte pushed since the buffer was made. */
    ghost function Pushed(): seq<byte>
      reads this
    {
      earlier + message
    }

    /** The frames sent, followed by what the next flush will send, are exactly
        the bytes pushed; and no frame is empty or larger than the buffer. */
    ghost predicate Valid()
      reads this, sQ
    {
      sQ.Length == SQ_BUFFER_SIZE && sQlen <= SQ_BUFFER_SIZE &&
      Pushed() == Concat(frames) + sQ[..sQlen] &&
      forall k | 0 <= k < |frames| :: 0 < |frames[k]| <= SQ_BUFFER_SIZE
    }

    constructor (open: bool)
      ensures Valid() && fresh(sQ) && frames == [] && Pushed() == [] && this.open == open
    {
      sQ := new byte[SQ_BUFFER_SIZE](_ => 0);
      sQlen := 0;
      frames, earlier, message := [], [], [];
      this.open := open;
    }

    /** Marks the start of a message. */
    ghost method Begin()
      requires Valid()
      modifies this`earlier, this`message
      ensures Valid() && earlier == old(Pushed()) && message == []
    {
      earlier := Pushed();
      message := [];
      assert Pushed() == earlier;
    }

    method Flush()
      requires Valid()
      modifies this`sQlen, this`frames
      ensures Valid() && old(frames) <= frames
      ensures open ==> sQlen == 0
      ensures !open ==> frames == old(frames)
    {
      if sQlen > 0 && open {
        ConcatLast(frames, sQ[..sQlen]);
        frames := frames + [sQ[..sQlen]];
        sQlen := 0;
        assert Concat(frames) + sQ[..0] == Concat(frames);
      }
    }

    method EnsureSpace(bytes: nat)
      requires Valid() && open && bytes <= SQ_BUFFER_SIZE
      modifies this`sQlen, this`frames
      ensures Valid()
      ensures sQlen + bytes <= SQ_BUFFER_SIZE
    {
      if SQ_BUFFER_SIZE - sQlen < bytes {
        Flush();
      }
    }

    /** Stores one byte, keeping the low eight bits as a byte array does. */
    method Put(num: int)
      requires Valid() && sQlen < SQ_BUFFER_SIZE
      modifies this`sQlen, this`message, sQ
      ensures Valid() && message == old(message) + [num % TWO_8]
      ensures sQlen == old(sQlen) + 1
    {
      ghost var before := sQ[..sQlen];
      ghost var was := Pushed();
      sQ[sQlen] := num % TWO_8;
      sQlen := sQlen + 1;
      message := message + [num % TWO_8];
      assert sQ[..sQlen] == before + [num % TWO_8];
      assert Pushed() == was + [num % TWO_8];
    }

    method Push8(num: int)
      requires Valid() && open
      modifies this`sQlen, this`frames, this`message, sQ
      ensures Valid() && message == old(message) + U8(num)
    {
      EnsureSpace(1);
      Put(num);
    }

    method Push16(num: int)
      requires Valid() && open
      modifies this`sQlen, this`frames, this`message, sQ
      ensures Valid() && message == old(message) + U16(num)
    {
      EnsureSpace(2);
      Put(num / TWO_8);
      Put(num);
    }

    method Push32(num: int)
      requires Valid() && open
      modifies this`sQlen, this`frames, this`message, sQ
      ensures Valid() && message == old(message) + U32(num)
    {
      EnsureSpace(4);
      ghost var before := message;
      Put(num / TWO_24);
      Put(num / TWO_16);
      Put(num / TWO_8);
      Put(num);
      hide SendBuffer.Valid;
      assert message == before + U32(num);
    }

    method Copy(bytes: seq<byte>)
      requires Valid() && sQlen + |bytes| <= SQ_BUFFER_SIZE
      modifies this`sQlen, this`message, sQ
      ensures Valid() && message == old(message) + bytes
      ensures sQlen == old(sQlen) + |bytes|
    {
      ghost var before := sQ[..sQlen];
      ghost var was := Pushed();
      forall k | 0 <= k < |bytes| {
        sQ[sQlen + k] := bytes[k];
      }
      sQlen := sQlen + |bytes|;
      message := message + bytes;
      assert sQ[..sQlen] == before + bytes;
      assert Pushed() == was + bytes;
    }

    /** A byte string of any length, cut into buffer-sized chunks. */
    method PushBytes(bytes: seq<byte>)
      requires Valid() && open
      modifies this`sQlen, this`frames, this`message, sQ
      ensures Valid() && message == old(message) + bytes
    {
      var offset := 0;
      while offset < |bytes|
        invariant 0 <= offset <= |bytes| && Valid() && open
        invariant message == old(message) + bytes[..offset]
        decreases |bytes| - offset
      {
        EnsureSpace(1);
        var chunkSize := SQ_BUFFER_SIZE - sQlen;
        if chunkSize > |bytes| - offset {
          chunkSize := |bytes| - offset;
        }
        Copy(bytes[offset..offset + chunkSize]);
        assert bytes[..offset] + bytes[offset..offset + chunkSize] == bytes[..offset + chunkSize];
        offset := offset + chunkSize;
      }
      assert bytes[..offset] == bytes;
    }
  }
}
