/** What a call of the machine protocol returns, told by the actions alone: the
    very reply that was read for it, and no other. */
module QmpAnswers {
  import opened Bytes
  import opened QmpProtocol

  /** What Execute returns: the reply's result, or None for an error. */
  function Result(how: Outcome): Option<string> {
    match how
    case Answered(reply) => if reply.error.Some? then None else Some(reply.result)
    case _ => None
  }

  // Where answers come from

  ghost predicate Started(actions: seq<Action>, c: nat, encoded: bool) {
    exists i :: 0 <= i < |actions| && actions[i] == Execute(c, encoded)
  }

  /** The reply was read, after the call had begun. */
  ghost predicate ReadSince(actions: seq<Action>, c: nat, encoded: bool, reply: Reply) {
    exists i, j :: 0 <= i < j < |actions| && actions[i] == Execute(c, encoded) && actions[j] == Read(Some(reply))
  }

  lemma StartedStays(actions: seq<Action>, a: Action, c: nat, encoded: bool)
    requires Started(actions, c, encoded)
    ensures Started(actions + [a], c, encoded)
  {
    var i :| 0 <= i < |actions| && actions[i] == Execute(c, encoded);
    assert (actions + [a])[i] == Execute(c, encoded);
  }

  lemma ReadStays(actions: seq<Action>, a: Action, c: nat, encoded: bool, reply: Reply)
    requires ReadSince(actions, c, encoded, reply)
    ensures ReadSince(actions + [a], c, encoded, reply)
  {
    var i, j :| 0 <= i < j < |actions| && actions[i] == Execute(c, encoded) && actions[j] == Read(Some(reply));
    assert (actions + [a])[i] == Execute(c, encoded) && (actions + [a])[j] == Read(Some(reply));
  }

  lemma ReadNow(actions: seq<Action>, c: nat, encoded: bool, reply: Reply)
    requires Started(actions, c, encoded)
    ensures ReadSince(actions + [Read(Some(reply))], c, encoded, reply)
  {
    var i :| 0 <= i < |actions| && actions[i] == Execute(c, encoded);
    var all := actions + [Read(Some(reply))];
    assert all[i] == Execute(c, encoded) && all[|actions|] == Read(Some(reply));
  }

  lemma StartedNow(actions: seq<Action>, c: nat, encoded: bool)
    ensures Started(actions + [Execute(c, encoded)], c, encoded)
  {
    assert (actions + [Execute(c, encoded)])[|actions|] == Execute(c, encoded);
  }

  predicate WasSent(call: Call) {
    call != Returned(call.id, NotSent)
  }

  ghost predicate CallsStarted(actions: seq<Action>, s: State) {
    forall c | c in s.calls && s.calls[c].id != 0 :: Started(actions, c, WasSent(s.calls[c]))
  }

  ghost predicate ForOwner(actions: seq<Action>, s: State, id: nat, reply: Reply) {
    id in s.owner && s.owner[id] in s.calls && ReadSince(actions, s.owner[id], WasSent(s.calls[s.owner[id]]), reply)
  }

  ghost predicate BuffersRead(actions: seq<Action>, s: State) {
    && (forall id | id in s.chans && s.chans[id].buffer != [] :: ForOwner(actions, s, id, s.chans[id].buffer[0]))
    && (s.reader.Sending? ==> ForOwner(actions, s, s.reader.id, s.reader.reply))
  }

  ghost predicate AnswersRead(actions: seq<Action>, s: State) {
    forall c | c in s.calls && s.calls[c].Returned? && s.calls[c].how.Answered? ::
      ReadSince(actions, c, true, s.calls[c].how.reply)
  }

  ghost predicate History(actions: seq<Action>, s: State) {
    CallsStarted(actions, s) && BuffersRead(actions, s) && AnswersRead(actions, s)
  }

  /** A call keeps whether it was sent. */
  lemma SentStays(s: State, a: Action, c: nat)
    requires Enabled(s, a) && c in s.calls
    ensures c in Step(s, a).calls && WasSent(Step(s, a).calls[c]) == WasSent(s.calls[c])
  {
  }

  lemma CallIdStays(s: State, a: Action, c: nat)
    requires Enabled(s, a) && c in s.calls
    ensures c in Step(s, a).calls && Step(s, a).calls[c].id == s.calls[c].id
  {
  }

  lemma NewCall(s: State, a: Action, c: nat)
    requires Enabled(s, a) && c !in s.calls && c in Step(s, a).calls
    ensures a.Execute? && a.call == c
    ensures Step(s, a).calls[c].id != 0 ==> WasSent(Step(s, a).calls[c]) == a.encoded
  {
  }

  lemma StepKeepsStarted(actions: seq<Action>, s: State, a: Action)
    requires Enabled(s, a) && CallsStarted(actions, s)
    ensures CallsStarted(actions + [a], Step(s, a))
  {
    hide Started, Step, Enabled, WasSent;
    var t := Step(s, a);
    forall c | c in t.calls && t.calls[c].id != 0
      ensures Started(actions + [a], c, WasSent(t.calls[c]))
    {
      if c in s.calls {
        CallIdStays(s, a, c);
        SentStays(s, a, c);
        StartedStays(actions, a, c, WasSent(s.calls[c]));
      } else {
        NewCall(s, a, c);
        StartedNow(actions, a.call, a.encoded);
      }
    }
  }

  lemma OwnerStays(s: State, a: Action, id: nat)
    requires Inv(s) && Enabled(s, a) && id in s.owner
    ensures id in Step(s, a).owner && Step(s, a).owner[id] == s.owner[id]
  {
  }

  lemma ForOwnerStays(actions: seq<Action>, s: State, a: Action, id: nat, reply: Reply)
    requires Inv(s) && Enabled(s, a) && ForOwner(actions, s, id, reply)
    ensures ForOwner(actions + [a], Step(s, a), id, reply)
  {
    hide Inv, ReadSince, Step, Enabled;
    OwnerStays(s, a, id);
    SentStays(s, a, s.owner[id]);
    ReadStays(actions, a, s.owner[id], WasSent(s.calls[s.owner[id]]), reply);
  }

  lemma ReadForOwner(actions: seq<Action>, s: State, a: Action)
    requires Inv(s) && CallsStarted(actions, s) && a.Read? && Enabled(s, a) && Step(s, a).reader.Sending?
    ensures ForOwner(actions + [a], Step(s, a), Step(s, a).reader.id, Step(s, a).reader.reply)
  {
    var t := Step(s, a);
    var id, c := t.reader.id, s.owner[t.reader.id];
    assert s.calls[c].id == id != 0;
    hide Inv, Started, ReadSince;
    ReadNow(actions, c, WasSent(s.calls[c]), t.reader.reply);
  }

  lemma {:induction false} BufferFrom(s: State, a: Action, id: nat)
    requires Inv(s) && Enabled(s, a) && id in Step(s, a).chans && Step(s, a).chans[id].buffer != []
    ensures || (id in s.chans && s.chans[id].buffer != [] && s.chans[id].buffer[0] == Step(s, a).chans[id].buffer[0])
            || (s.reader.Sending? && s.reader.id == id && s.reader.reply == Step(s, a).chans[id].buffer[0])
  {
    hide Owned, Expected, OwnReplies, Accounted;
  }

  lemma StepKeepsBuffers(actions: seq<Action>, s: State, a: Action)
    requires Inv(s) && Enabled(s, a) && CallsStarted(actions, s) && BuffersRead(actions, s)
    ensures BuffersRead(actions + [a], Step(s, a))
  {
    var t := Step(s, a);
    assert !a.Read? && t.reader.Sending? ==> t.reader == s.reader;
    hide Inv, ForOwner, CallsStarted, Step, Enabled;
    if t.reader.Sending? {
      if a.Read? {
        ReadForOwner(actions, s, a);
      } else {
        ForOwnerStays(actions, s, a, t.reader.id, t.reader.reply);
      }
    }
    forall id | id in t.chans && t.chans[id].buffer != []
      ensures ForOwner(actions + [a], t, id, t.chans[id].buffer[0])
    {
      BufferFrom(s, a, id);
      ForOwnerStays(actions, s, a, id, t.chans[id].buffer[0]);
    }
  }

  lemma StepKeepsAnswers(actions: seq<Action>, s: State, a: Action)
    requires Inv(s) && Enabled(s, a) && BuffersRead(actions, s) && AnswersRead(actions, s)
    ensures AnswersRead(actions + [a], Step(s, a))
  {
    var t := Step(s, a);
    forall c | c in t.calls && t.calls[c].Returned? && t.calls[c].how.Answered?
      ensures ReadSince(actions + [a], c, true, t.calls[c].how.reply)
    {
      AnswerFrom(s, a, c);
      hide Inv, ReadSince;
      ReadStays(actions, a, c, true, t.calls[c].how.reply);
    }
  }

  /** An answer was there, or was in the channel of the call's own request. */
  lemma AnswerFrom(s: State, a: Action, c: nat)
    requires Inv(s) && Enabled(s, a) && c in Step(s, a).calls
    requires Step(s, a).calls[c].Returned? && Step(s, a).calls[c].how.Answered?
    ensures c in s.calls
    ensures || s.calls[c] == Step(s, a).calls[c]
            || (s.calls[c].Waiting? && s.calls[c].id in s.chans && s.chans[s.calls[c].id].buffer != []
                && s.chans[s.calls[c].id].buffer[0] == Step(s, a).calls[c].how.reply
                && s.calls[c].id in s.owner && s.owner[s.calls[c].id] == c)
  {
    hide Unused, Clean, Expected, OwnReplies, Accounted;
  }

  lemma {:induction false} ReachableHistory(actions: seq<Action>)
    ensures Run(actions).Some? ==> History(actions, Run(actions).value)
  {
    if actions != [] {
      var before, a := actions[..|actions| - 1], actions[|actions| - 1];
      assert actions == before + [a];
      ReachableHistory(before);
      ReachableInv(before);
      if Run(before).Some? && Enabled(Run(before).value, a) {
        var s := Run(before).value;
        hide Inv, CallsStarted, BuffersRead, AnswersRead, Step, Enabled;
        StepKeepsStarted(before, s, a);
        StepKeepsBuffers(before, s, a);
        StepKeepsAnswers(before, s, a);
      }
    }
  }

  /** Over every interleaving: a call that is answered returns a reply that was
      read as it is, after the call's request had been written. */
  lemma AnswersWereRead(actions: seq<Action>, s: State, c: nat)
    requires Run(actions) == Some(s) && c in s.calls && s.calls[c].Returned? && s.calls[c].how.Answered?
    ensures exists i, j :: 0 <= i < j < |actions| && actions[i] == Execute(c, true)
                           && actions[j] == Read(Some(s.calls[c].how.reply))
  {
    hide Run;
    ReachableHistory(actions);
  }

  /** A call succeeds only with a result that was read for it, in a reply without
      an error. */
  lemma ResultsWereRead(actions: seq<Action>, s: State, c: nat)
    requires Run(actions) == Some(s) && c in s.calls && s.calls[c].Returned? && Result(s.calls[c].how).Some?
    ensures exists i, j, reply :: 0 <= i < j < |actions| && actions[i] == Execute(c, true)
                           && actions[j] == Read(Some(reply)) && reply.id == Some(s.calls[c].id as int)
                           && reply.error.None? && Result(s.calls[c].how) == Some(reply.result)
  {
    AnswersWereRead(actions, s, c);
    RepliesReachTheirCallers(actions, s, c);
    hide Run;
  }

  // Delivery

  lemma RunOne(actions: seq<Action>, s: State, a: Action)
    requires Run(actions) == Some(s) && Enabled(s, a)
    ensures Run(actions + [a]) == Some(Step(s, a))
  {
    hide Step, Enabled;
    assert (actions + [a])[..|actions|] == actions;
  }

  function Executes(actions: seq<Action>): nat {
    if actions == [] then 0 else
    Executes(actions[..|actions| - 1]) + (if actions[|actions| - 1].Execute? then 1 else 0)
  }

  /** Requests are numbered through, from 1. */
  lemma {:induction false} IdsAreCounted(actions: seq<Action>)
    ensures Run(actions).Some? && !Run(actions).value.failed ==> Run(actions).value.nextID == Executes(actions)
  {
    if actions != [] {
      IdsAreCounted(actions[..|actions| - 1]);
    }
  }

  /** While the connection works, a request that is written gets the next number
      and is pending. */
  lemma RequestIsPending(actions: seq<Action>, s: State, c: nat)
    requires Run(actions) == Some(s) && !s.failed && c !in s.calls
    ensures var t := Run(actions + [Execute(c, true)]);
            && t.Some? && c in t.value.calls && t.value.calls[c] == Waiting(Executes(actions) + 1)
            && Executes(actions) + 1 in t.value.pending
  {
    RunOne(actions, s, Execute(c, true));
    IdsAreCounted(actions);
    hide Run, Executes;
  }

  /** The channel of a request holds a reply for the call that made it. */
  ghost predicate Holds(s: State, c: nat, id: nat, reply: Reply) {
    && Inv(s) && id !in s.pending && id in s.chans && s.chans[id].buffer == [reply]
    && id in s.owner && s.owner[id] == c && c in s.calls && s.calls[c].id == id
    && !(s.reader.Sending? && s.reader.id == id)
  }

  lemma PassedOn(s: State, id: nat, reply: Reply)
    requires Inv(s) && s.reader == Reading && id in s.pending && reply.event == "" && reply.id == Some(id as int)
    ensures Enabled(s, Read(Some(reply))) && Enabled(Step(s, Read(Some(reply))), QmpProtocol.Send)
    ensures id in s.owner && s.owner[id] in s.calls
    ensures var t := Step(Step(s, Read(Some(reply))), QmpProtocol.Send);
            Holds(t, s.owner[id], id, reply) && t.calls == s.calls
  {
    var r := Read(Some(reply));
    StepKeepsInv(s, r);
    StepKeepsInv(Step(s, r), QmpProtocol.Send);
    hide Expected, OwnReplies, Clean;
  }

  /** A reply that is not an event and whose id is pending is put into that
      request's channel as it is, ... */
  lemma ReplyIsDelivered(actions: seq<Action>, s: State, id: nat, reply: Reply)
    requires Run(actions) == Some(s) && s.reader == Reading && id in s.pending
    requires reply.event == "" && reply.id == Some(id as int)
    ensures id in s.owner && s.owner[id] in s.calls
    ensures var t := Run(actions + [Read(Some(reply)), QmpProtocol.Send]);
            t.Some? && Holds(t.value, s.owner[id], id, reply) && t.value.calls == s.calls
  {
    ReachableInv(actions);
    PassedOn(s, id, reply);
    var r := Read(Some(reply));
    hide Run, Inv, Holds, Step, Enabled;
    RunOne(actions, s, r);
    RunOne(actions + [r], Step(s, r), QmpProtocol.Send);
    assert actions + [r] + [QmpProtocol.Send] == actions + [r, QmpProtocol.Send];
  }

  lemma StepKeepsReply(s: State, a: Action, c: nat, id: nat, reply: Reply)
    requires Holds(s, c, id, reply) && Enabled(s, a) && a != Receive(c)
    ensures var t := Step(s, a);
            && id !in t.pending && id in t.chans && t.chans[id].buffer == [reply]
            && !(t.reader.Sending? && t.reader.id == id)
  {
    hide Expected, OwnReplies, Accounted, Unused;
  }

  lemma StepKeepsHolding(s: State, a: Action, c: nat, id: nat, reply: Reply)
    requires Holds(s, c, id, reply) && Enabled(s, a) && a != Receive(c)
    ensures Holds(Step(s, a), c, id, reply)
  {
    StepKeepsInv(s, a);
    StepKeepsReply(s, a, c, id, reply);
    OwnerStays(s, a, id);
    CallIdStays(s, a, c);
    hide Inv, Step, Enabled;
  }

  /** ... stays there whatever else happens, until the call takes it, ... */
  lemma {:induction false} ReplyWaitsForItsCall(actions: seq<Action>, s: State, more: seq<Action>, c: nat, id: nat, reply: Reply)
    requires Run(actions) == Some(s) && Holds(s, c, id, reply) && Receive(c) !in more && Run(actions + more).Some?
    ensures Holds(Run(actions + more).value, c, id, reply)
    decreases |more|
  {
    if more == [] {
      assert actions + more == actions;
    } else {
      var before, a := more[..|more| - 1], more[|more| - 1];
      assert (actions + more)[..|actions + more| - 1] == actions + before;
      hide Holds, Step, Enabled;
      ReplyWaitsForItsCall(actions, s, before, c, id, reply);
      StepKeepsHolding(Run(actions + before).value, a, c, id, reply);
    }
  }

  /** ... and if the call is still waiting, that is what it returns. */
  lemma ReplyIsReturned(actions: seq<Action>, s: State, c: nat, id: nat, reply: Reply)
    requires Run(actions) == Some(s) && Holds(s, c, id, reply) && s.calls[c].Waiting?
    ensures var t := Run(actions + [Receive(c)]);
            && t.Some? && c in t.value.calls && t.value.calls[c] == Returned(id, Answered(reply))
            && Result(Answered(reply)) == if reply.error.Some? then None else Some(reply.result)
  {
    RunOne(actions, s, Receive(c));
    hide Run, Inv;
  }
}
