/** The shared fields and channels behind QmpProtocol. */
module Qmp {
  import opened Bytes
  import opened QmpProtocol
  import QmpAnswers

  /** A channel with room for one reply. */
  class Channel {
    var buffer: seq<Reply>
    var closed: bool
    ghost var sent: nat

    constructor ()
      ensures Now() == FRESH
    {
      buffer, closed, sent := [], false, 0;
    }

    ghost function Now(): Chan
      reads this
    {
      Chan(buffer, closed, sent)
    }

    method Send(r: Reply)
      requires CanSend(Now())
      modifies this
      ensures Now() == Chan(old(buffer) + [r], false, old(sent) + 1)
    {
      buffer := buffer + [r];
      sent := sent + 1;
    }

    method Receive() returns (r: Option<Reply>)
      requires buffer != [] || closed
      modifies `buffer
      ensures if old(buffer) != [] then r == Some(old(buffer)[0]) && buffer == old(buffer)[1..]
              else r == None && buffer == []
    {
      if buffer == [] {
        return None;
      }
      r := Some(buffer[0]);
      buffer := buffer[1..];
    }

    method Close()
      requires !closed
      modifies `closed
      ensures closed
    {
      closed := true;
    }
  }

  class Qmp {
    var nextID: nat
    var failed: bool
    var pending: map<nat, Channel>
    // every channel made and what it holds, and where the calls and the reader are
    ghost var channels: map<nat, Channel>
    ghost var chans: map<nat, Chan>
    ghost var calls: map<nat, Call>
    ghost var owner: map<nat, nat>
    ghost var reader: Reader

    ghost function Now(): State
      reads this
    {
      State(nextID, failed, pending.Keys, chans, calls, owner, reader)
    }

    /** The abstract channels are the real ones, and no two are the same. */
    ghost predicate Tied()
      reads `channels, `chans, `pending, channels.Values
    {
      && channels.Keys == chans.Keys
      && (forall id | id in channels :: channels[id].Now() == chans[id])
      && (forall id | id in pending :: id in channels && pending[id] == channels[id])
      && (forall i, j | i in channels && j in channels && i != j :: channels[i] != channels[j])
    }

    constructor ()
      ensures Tied() && Now() == INITIAL
    {
      nextID, failed, pending := 0, false, map[];
      channels, chans, calls, owner, reader := map[], map[], map[], map[], Reading;
    }

    method AddChannel() returns (made: Channel)
      requires Tied() && nextID + 1 !in chans
      modifies `nextID, `pending, `channels, `chans
      ensures Tied() && nextID == old(nextID) + 1
      ensures pending.Keys == old(pending.Keys) + {nextID} && chans == old(chans)[nextID := FRESH]
      ensures nextID in channels && channels[nextID] == made
    {
      made := new Channel();
      nextID := nextID + 1;
      pending := pending[nextID := made];
      channels := channels[nextID := made];
      chans := chans[nextID := FRESH];
    }

    /** The first half of Execute, under the lock: a channel, or an end at once.
        Whether the request could be written is the connection's answer. */
    method Register(ghost c: nat, encoded: bool) returns (ch: Option<Channel>)
      requires Tied() && c !in calls && NextUnused(Now())
      modifies this
      ensures Tied() && Now() == Step(old(Now()), Execute(c, encoded))
      ensures ch.Some? <==> !failed && encoded
      ensures ch.Some? ==> nextID in channels && channels[nextID] == ch.value
    {
      if failed {
        calls := calls[c := Returned(0, Refused)];
        return None;
      }
      assert Step(Now(), Execute(c, encoded)) == QmpProtocol.Register(Now(), c, encoded);
      hide Step, Tied;
      var made := AddChannel();
      owner := owner[nextID := c];
      calls := calls[c := if encoded then Waiting(nextID) else Returned(nextID, NotSent)];
      return if encoded then Some(made) else None;
    }

    /** The other half, when the select takes the channel: the reply's result, or
        None when it carries an error or the channel is closed. */
    method Await(ghost c: nat, id: nat, ch: Channel) returns (result: Option<string>)
      requires Tied() && c in calls && calls[c] == Waiting(id) && id in channels && channels[id] == ch
      requires Enabled(Now(), Receive(c))
      modifies this`chans, this`calls, ch
      ensures Tied() && Now() == Step(old(Now()), Receive(c))
      ensures calls[c].Returned? && result == QmpAnswers.Result(calls[c].how)
    {
      ghost var t := Step(Now(), Receive(c));
      assert t == TakeReply(Now(), c, id);
      hide Step, Enabled, Tied;
      var r := Take(id, ch);
      calls := calls[c := Returned(id, if r.Some? then Answered(r.value) else Closed)];
      if r.None? || r.value.error.Some? {
        return None;
      }
      return Some(r.value.result);
    }

    method Take(id: nat, ch: Channel) returns (r: Option<Reply>)
      requires Tied() && id in channels && channels[id] == ch && id in chans
      requires chans[id].buffer != [] || chans[id].closed
      modifies this`chans, ch
      ensures Tied()
      ensures var was := old(chans)[id];
              if was.buffer != [] then r == Some(was.buffer[0]) && chans == old(chans)[id := was.(buffer := was.buffer[1..])]
              else r == None && chans == old(chans)
    {
      r := ch.Receive();
      ghost var was := chans;
      chans := chans[id := ch.Now()];
      if r.None? {
        assert chans == was;
      }
    }

    /** ... and when it takes the context. */
    method Abandon(ghost c: nat, id: nat)
      requires Tied() && c in calls && calls[c] == Leaving(id)
      modifies `pending, `calls
      ensures Tied() && Now() == Step(old(Now()), Forget(c))
    {
      pending := pending - {id};
      calls := calls[c := Returned(id, Cancelled)];
      assert pending.Keys == old(pending.Keys) - {id};
    }

    /** What the reader does with a line, under the lock: the channel to send to. */
    method Dispatch(line: Option<Reply>) returns (ch: Option<Channel>)
      requires Tied() && reader == Reading
      modifies `pending, `reader
      ensures Tied() && Now() == Step(old(Now()), Read(line))
      ensures ch.Some? <==> reader.Sending?
      ensures ch.Some? ==> reader.id in channels && channels[reader.id] == ch.value && reader.reply == line.value
    {
      ghost var t := Step(Now(), Read(line));
      assert t == QmpProtocol.Dispatch(Now(), line);
      hide Step;
      if line.None? || line.value.event != "" || line.value.id.None? || line.value.id.value < 0 {
        return None;
      }
      var id: nat := line.value.id.value;
      if id !in pending {
        return None;
      }
      ch := Some(pending[id]);
      pending := pending - {id};
      reader := Sending(id, line.value);
      assert pending.Keys == old(pending.Keys) - {id};
    }

    method Deliver(r: Reply, ch: Channel)
      requires Tied() && reader.Sending? && reader.reply == r && reader.id in channels && channels[reader.id] == ch
      requires CanSend(chans[reader.id])
      modifies this`chans, this`reader, ch
      ensures Tied() && Now() == Step(old(Now()), QmpProtocol.Send)
    {
      ch.Send(r);
      chans := chans[reader.id := ch.Now()];
      reader := Reading;
    }

    method CloseOne(id: nat)
      requires Tied() && id in pending && !chans[id].closed
      modifies `pending, `chans, pending[id]
      ensures Tied() && pending.Keys == old(pending.Keys) - {id} && pending.Values <= old(pending.Values)
      ensures chans == old(chans)[id := old(chans)[id].(closed := true)]
    {
      var ch := pending[id];
      ch.Close();
      pending := pending - {id};
      chans := chans[id := ch.Now()];
    }

    method CloseNext(id: nat, ghost s: State)
      requires Tied() && id in pending && pending.Keys <= s.pending && AllFresh(s) && chans == ClosedSo(s, pending.Keys)
      modifies `pending, `chans, pending.Values
      ensures Tied() && pending.Keys == old(pending.Keys) - {id} && pending.Values <= old(pending.Values)
      ensures chans == ClosedSo(s, pending.Keys)
    {
      assert pending[id] in pending.Values;
      ClosedOne(s, pending.Keys, id);
      hide ClosedSo;
      CloseOne(id);
    }

    /** A failed read: every pending channel is closed, in any order. */
    method FailAll()
      requires Tied() && reader == Reading && AllFresh(Now())
      modifies this, pending.Values
      ensures Tied() && Now() == Step(old(Now()), Fail)
    {
      ghost var s := Now();
      ClosedEnds(s);
      hide Step, ClosedSo, Tied, AllFresh;
      failed := true;
      CloseEveryone(s);
      reader := Stopped;
    }

    method CloseEveryone(ghost s: State)
      requires Tied() && pending.Keys == s.pending && chans == s.chans == ClosedSo(s, s.pending)
      requires AllFresh(s)
      modifies `pending, `chans, pending.Values
      ensures Tied() && pending.Keys == {} && chans == ClosedSo(s, {})
    {
      ghost var all := pending.Values;
      hide Tied, ClosedSo, AllFresh;
      while pending != map[]
        invariant Tied() && pending.Keys <= s.pending && pending.Values <= all && chans == ClosedSo(s, pending.Keys)
        decreases |pending.Keys|
      {
        var id :| id in pending;
        CloseNext(id, s);
      }
    }
  }

  // What the methods need of the state; the invariant gives it.

  ghost predicate NextUnused(s: State) {
    s.nextID + 1 !in s.chans
  }

  ghost predicate AllFresh(s: State) {
    forall id | id in s.pending :: id in s.chans && s.chans[id] == FRESH
  }

  lemma InvSuffices(s: State)
    requires Inv(s)
    ensures NextUnused(s) && AllFresh(s)
    ensures s.reader.Sending? ==> s.reader.id in s.chans && CanSend(s.chans[s.reader.id])
  {
  }

  /** The channels when all but `left` of the pending ones are closed. */
  ghost function ClosedSo(s: State, left: set<nat>): map<nat, Chan> {
    map id | id in s.chans :: if id in s.pending && id !in left then s.chans[id].(closed := true) else s.chans[id]
  }

  lemma ClosedEnds(s: State)
    ensures ClosedSo(s, s.pending) == s.chans
    ensures s.reader == Reading ==>
              Step(s, Fail) == s.(failed := true, reader := Stopped, pending := {}, chans := ClosedSo(s, {}))
  {
  }

  lemma ClosedOne(s: State, left: set<nat>, id: nat)
    requires id in left && left <= s.pending && id in s.chans
    ensures id in ClosedSo(s, left) && ClosedSo(s, left)[id] == s.chans[id]
    ensures ClosedSo(s, left - {id}) == ClosedSo(s, left)[id := s.chans[id].(closed := true)]
  {
  }
}
