/** The machine-protocol client as interleaved atomic steps: one for each region
    that holds the lock, and one for each channel operation. */
module QmpProtocol {
  import opened Bytes

  /** A decoded line from the machine. */
  datatype Reply = Reply(id: Option<int>, event: string, error: Option<string>, result: string)

  /** A reply channel, with room for one reply; `sent` counts the sends so far. */
  datatype Chan = Chan(buffer: seq<Reply>, closed: bool, sent: nat)

  const FRESH: Chan := Chan([], false, 0)

  /** How a call of Execute ended. */
  datatype Outcome = Answered(reply: Reply) | Closed | Refused | NotSent | Cancelled

  /** A call: its request's id, and where it is. One that was refused has no id. */
  datatype Call = Waiting(id: nat) | Leaving(id: nat) | Returned(id: nat, how: Outcome)

  datatype Reader = Reading | Sending(id: nat, reply: Reply) | Stopped

  /** Calls are numbered, and `owner` remembers which call made a request. */
  datatype State = State(nextID: nat, failed: bool, pending: set<nat>, chans: map<nat, Chan>,
                         calls: map<nat, Call>, owner: map<nat, nat>, reader: Reader)

  const INITIAL: State := State(0, false, {}, map[], map[], map[], Reading)

  datatype Action =
    | Execute(call: nat, encoded: bool)   // register and write the request
    | Receive(call: nat)                  // the select takes the channel
    | Cancel(call: nat)                   // the select takes the context
    | Forget(call: nat)                   // a cancelled call removes its entry
    | Read(line: Option<Reply>)           // a line arrives; None is not JSON
    | Send                                // the reader passes the reply on
    | Fail                                // the connection fails

  predicate Enabled(s: State, a: Action) {
    match a
    case Execute(c, _) => c !in s.calls
    case Receive(c) =>
      c in s.calls && s.calls[c].Waiting? && s.calls[c].id in s.chans
      && (s.chans[s.calls[c].id].buffer != [] || s.chans[s.calls[c].id].closed)
    case Cancel(c) => c in s.calls && s.calls[c].Waiting?
    case Forget(c) => c in s.calls && s.calls[c].Leaving?
    case Read(_) => s.reader == Reading
    case Send => s.reader.Sending? && s.reader.id in s.chans && CanSend(s.chans[s.reader.id])
    case Fail => s.reader == Reading
  }

  /** A send to a full channel blocks, and one to a closed channel panics. */
  predicate CanSend(ch: Chan) {
    |ch.buffer| < 1 && !ch.closed
  }

  function Register(s: State, c: nat, encoded: bool): State {
    var id := s.nextID + 1;
    s.(nextID := id, pending := s.pending + {id}, chans := s.chans[id := FRESH], owner := s.owner[id := c],
       calls := s.calls[c := if encoded then Waiting(id) else Returned(id, NotSent)])
  }

  function TakeReply(s: State, c: nat, id: nat): State
    requires id in s.chans && (s.chans[id].buffer != [] || s.chans[id].closed)
  {
    var ch := s.chans[id];
    if ch.buffer != [] then
      s.(chans := s.chans[id := ch.(buffer := ch.buffer[1..])], calls := s.calls[c := Returned(id, Answered(ch.buffer[0]))])
    else s.(calls := s.calls[c := Returned(id, Closed)])
  }

  /** Events and lines without an id go elsewhere or nowhere, and so do replies
      that nothing is pending for. */
  function Dispatch(s: State, line: Option<Reply>): State {
    if line.None? || line.value.event != "" || line.value.id.None? then s else
    var id := line.value.id.value;
    if id < 0 || id as nat !in s.pending then s
    else s.(pending := s.pending - {id as nat}, reader := Sending(id, line.value))
  }

  function CloseAll(s: State): State {
    s.(failed := true, reader := Stopped, pending := {},
       chans := map id | id in s.chans :: if id in s.pending then s.chans[id].(closed := true) else s.chans[id])
  }

  function Step(s: State, a: Action): State
    requires Enabled(s, a)
  {
    match a
    case Execute(c, encoded) =>
      if s.failed then s.(calls := s.calls[c := Returned(0, Refused)]) else Register(s, c, encoded)
    case Receive(c) => TakeReply(s, c, s.calls[c].id)
    case Cancel(c) => s.(calls := s.calls[c := Leaving(s.calls[c].id)])
    case Forget(c) =>
      s.(pending := s.pending - {s.calls[c].id}, calls := s.calls[c := Returned(s.calls[c].id, Cancelled)])
    case Read(line) => Dispatch(s, line)
    case Send =>
      var ch := s.chans[s.reader.id];
      s.(chans := s.chans[s.reader.id := Chan(ch.buffer + [s.reader.reply], false, ch.sent + 1)], reader := Reading)
    case Fail => CloseAll(s)
  }

  // The invariant

  ghost predicate IdsInOrder(s: State) {
    && (forall id :: id in s.chans <==> 1 <= id <= s.nextID)
    && (forall id :: id in s.owner <==> 1 <= id <= s.nextID)
  }

  /** Every request belongs to one call, and every call with a request owns it. */
  ghost predicate Owned(s: State) {
    && (forall id | id in s.owner :: s.owner[id] in s.calls && s.calls[s.owner[id]].id == id)
    && (forall c | c in s.calls ::
          if s.calls[c].id == 0 then s.calls[c] == Returned(0, Refused)
          else s.calls[c].id in s.owner && s.owner[s.calls[c].id] == c)
  }

  /** A channel that someone may still send to or close has not been used. */
  ghost predicate Unused(s: State) {
    && (forall id | id in s.pending :: id in s.chans && s.chans[id] == FRESH)
    && (s.reader.Sending? ==>
          && s.reader.id !in s.pending && s.reader.id in s.chans && s.chans[s.reader.id] == FRESH
          && s.reader.reply.id == Some(s.reader.id as int))
  }

  /** At most one send a channel, none to a closed one, and only of its own reply. */
  ghost predicate Clean(s: State) {
    forall id | id in s.chans ::
      var ch := s.chans[id];
      && |ch.buffer| <= ch.sent <= 1 && (ch.closed ==> ch.sent == 0)
      && (ch.buffer != [] ==> ch.buffer[0].id == Some(id as int))
  }

  /** Something is on its way to every waiting call. */
  ghost predicate Expected(s: State) {
    forall c | c in s.calls && s.calls[c].Waiting? ::
      var id := s.calls[c].id;
      id in s.chans && (id in s.pending || (s.reader.Sending? && s.reader.id == id)
                        || s.chans[id].buffer != [] || s.chans[id].closed)
  }

  ghost predicate OwnReplies(s: State) {
    forall c | c in s.calls && s.calls[c].Returned? && s.calls[c].how.Answered? ::
      s.calls[c].how.reply.id == Some(s.calls[c].id as int)
  }

  /** What stays pending: requests that are awaited, and ones that could not be written. */
  ghost predicate Accounted(s: State) {
    forall id | id in s.pending ::
      id in s.owner && s.owner[id] in s.calls
      && (var call := s.calls[s.owner[id]]; call.Waiting? || call.Leaving? || call.how == NotSent)
  }

  ghost predicate Inv(s: State) {
    && IdsInOrder(s) && Owned(s) && Unused(s) && Clean(s) && Expected(s) && OwnReplies(s) && Accounted(s)
    && (s.failed <==> s.reader.Stopped?) && (s.failed ==> s.pending == {})
  }

  /** The part of the invariant about channels, and the part about calls. */
  ghost predicate ChannelsFine(s: State) {
    && IdsInOrder(s) && Unused(s) && Clean(s) && (s.failed <==> s.reader.Stopped?) && (s.failed ==> s.pending == {})
  }

  ghost predicate CallsFine(s: State) {
    Owned(s) && Expected(s) && OwnReplies(s) && Accounted(s)
  }

  predicate ByReader(a: Action) {
    a.Read? || a.Send? || a.Fail?
  }

  lemma CallerKeepsChannels(s: State, a: Action)
    requires Inv(s) && Enabled(s, a) && !ByReader(a)
    ensures ChannelsFine(Step(s, a))
  {
    if a.Execute? {
      ExecuteKeepsChannels(s, a);
    } else {
      EndingKeepsChannels(s, a);
    }
    hide Step, ChannelsFine, Inv;
  }

  lemma ExecuteKeepsChannels(s: State, a: Action)
    requires Inv(s) && Enabled(s, a) && a.Execute?
    ensures ChannelsFine(Step(s, a))
  {
    hide Owned, Expected, OwnReplies, Accounted;
  }

  lemma EndingKeepsChannels(s: State, a: Action)
    requires Inv(s) && Enabled(s, a) && (a.Receive? || a.Cancel? || a.Forget?)
    ensures ChannelsFine(Step(s, a))
  {
    hide Owned, Expected, OwnReplies, Accounted;
  }

  lemma ReaderKeepsChannels(s: State, a: Action)
    requires Inv(s) && Enabled(s, a) && ByReader(a)
    ensures ChannelsFine(Step(s, a))
  {
    hide Owned, Expected, OwnReplies, Accounted;
  }

  lemma ExecuteKeepsOwners(s: State, a: Action)
    requires Inv(s) && Enabled(s, a) && a.Execute?
    ensures Owned(Step(s, a)) && OwnReplies(Step(s, a))
  {
    hide Expected, Accounted;
  }

  lemma ExecuteKeepsCalls(s: State, a: Action)
    requires Inv(s) && Enabled(s, a) && a.Execute?
    ensures CallsFine(Step(s, a))
  {
    ExecuteKeepsOwners(s, a);
    hide OwnReplies, Clean;
  }

  lemma ReceiveKeepsOwners(s: State, a: Action)
    requires Inv(s) && Enabled(s, a) && a.Receive?
    ensures Owned(Step(s, a)) && OwnReplies(Step(s, a))
  {
    hide Expected, Accounted;
  }

  lemma ReceiveKeepsCalls(s: State, a: Action)
    requires Inv(s) && Enabled(s, a) && a.Receive?
    ensures CallsFine(Step(s, a))
  {
    ReceiveKeepsOwners(s, a);
    hide OwnReplies, Clean;
  }

  lemma LeaveKeepsOwners(s: State, a: Action)
    requires Inv(s) && Enabled(s, a) && (a.Cancel? || a.Forget?)
    ensures Owned(Step(s, a)) && OwnReplies(Step(s, a))
  {
    hide Expected, Accounted;
  }

  lemma LeaveKeepsCalls(s: State, a: Action)
    requires Inv(s) && Enabled(s, a) && (a.Cancel? || a.Forget?)
    ensures CallsFine(Step(s, a))
  {
    LeaveKeepsOwners(s, a);
    hide OwnReplies, Clean;
  }

  lemma ReaderKeepsCalls(s: State, a: Action)
    requires Inv(s) && Enabled(s, a) && ByReader(a)
    ensures CallsFine(Step(s, a))
  {
  }

  lemma StepKeepsInv(s: State, a: Action)
    requires Inv(s) && Enabled(s, a)
    ensures Inv(Step(s, a))
  {
    if ByReader(a) {
      ReaderKeepsChannels(s, a);
      ReaderKeepsCalls(s, a);
    } else {
      CallerKeepsChannels(s, a);
      match a
      case Execute(_, _) => ExecuteKeepsCalls(s, a);
      case Receive(_) => ReceiveKeepsCalls(s, a);
      case _ => LeaveKeepsCalls(s, a);
    }
    hide Step, Owned, Unused, Clean, Expected, OwnReplies, Accounted, IdsInOrder;
  }

  // Every interleaving

  /** The state after some actions, if each was possible when it was taken. */
  ghost function Run(actions: seq<Action>): Option<State>
    decreases |actions|
  {
    if actions == [] then Some(INITIAL) else
    match Run(actions[..|actions| - 1])
    case None => None
    case Some(s) => if Enabled(s, actions[|actions| - 1]) then Some(Step(s, actions[|actions| - 1])) else None
  }

  lemma {:induction false} ReachableInv(actions: seq<Action>)
    ensures Run(actions).Some? ==> Inv(Run(actions).value)
    decreases |actions|
  {
    hide Inv, Step, Enabled;
    if actions == [] {
      InitialInv();
    } else {
      var before := Run(actions[..|actions| - 1]);
      ReachableInv(actions[..|actions| - 1]);
      if before.Some? && Enabled(before.value, actions[|actions| - 1]) {
        StepKeepsInv(before.value, actions[|actions| - 1]);
      }
    }
  }

  lemma InitialInv()
    ensures Inv(INITIAL)
  {
  }

  /** A returned reply carries the id of the caller's own request. */
  lemma RepliesReachTheirCallers(actions: seq<Action>, s: State, c: nat)
    requires Run(actions) == Some(s) && c in s.calls && s.calls[c].Returned? && s.calls[c].how.Answered?
    ensures s.calls[c].how.reply.id == Some(s.calls[c].id as int)
    ensures s.calls[c].id in s.owner && s.owner[s.calls[c].id] == c
  {
    ReachableInv(actions);
  }

  /** A channel never gets a second value, nor one after it was closed. */
  lemma OneReplyPerChannel(actions: seq<Action>, s: State, id: nat)
    requires Run(actions) == Some(s) && id in s.chans
    ensures s.chans[id].sent <= 1 && (s.chans[id].closed ==> s.chans[id].sent == 0)
  {
    ReachableInv(actions);
  }

  /** The reader's send neither blocks nor panics. */
  lemma ReaderNeverBlocks(actions: seq<Action>, s: State)
    requires Run(actions) == Some(s) && s.reader.Sending?
    ensures Enabled(s, Send)
  {
    ReachableInv(actions);
  }

  /** After the failure is recorded, no waiting call is left without a value or a
      closed channel: its next step returns. */
  lemma FailureReleasesEveryone(actions: seq<Action>, s: State, c: nat)
    requires Run(actions) == Some(s) && s.failed && c in s.calls && s.calls[c].Waiting?
    ensures Enabled(s, Receive(c)) && Step(s, Receive(c)).calls[c].Returned?
  {
    ReachableInv(actions);
  }

  /** Of the requests that are still pending, exactly those that could not be
      written have nobody waiting for them. */
  lemma OnlyUnwrittenRequestsLinger(actions: seq<Action>, s: State, id: nat)
    requires Run(actions) == Some(s) && id in s.pending
    ensures id in s.owner && s.owner[id] in s.calls
    ensures s.calls[s.owner[id]].Returned? <==> s.calls[s.owner[id]] == Returned(id, NotSent)
  {
    ReachableInv(actions);
  }

  lemma UnwrittenRequestLingers()
    ensures var s := Run([Execute(0, false)]);
            s.Some? && 1 in s.value.pending && s.value.calls[0] == Returned(1, NotSent)
  {
    var actions := [Execute(0, false)];
    assert actions[..0] == [];
  }
}
