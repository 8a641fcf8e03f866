/** How the decoders and the message loop are tied to the step machine. */
module RunFollowing {
  import opened Bytes
  import opened RectSteps
  import opened UpdateLoop

  /** Display calls and outgoing messages, in the order they are made. */
  class EventLog {
    var events: seq<Event>

    constructor ()
      ensures events == []
    {
      events := [];
    }

    method Add(e: Event)
      modifies this
      ensures events == old(events) + [e]
    {
      events := events + [e];
    }
  }

  /** Makes every pixel opaque. */
  method MakeOpaque(data: array<byte>, pixels: nat)
    requires data.Length == 4 * pixels
    modifies data
    ensures data[..] == RowPixels(old(data[..]), pixels, false)
  {
    ghost var goal := RowPixels(data[..], pixels, false);
    for i := 0 to pixels
      invariant forall k | 0 <= k < 4 * i :: data[k] == goal[k]
      invariant forall k | 4 * i <= k < 4 * pixels :: data[k] == old(data[k])
    {
      data[i * 4 + 3] := 255;
    }
  }

  // How far a run has been followed. The methods below work with these facts
  // alone; the machine itself stays hidden from them.

  /** From (c, q0) the machine has come to (d, q), having done `out`. */
  ghost predicate Reaches(c: Conn, q0: seq<byte>, out: seq<Event>, d: Conn, q: seq<byte>) {
    ConnOk(c) && ConnOk(d) && Run(c, q0) == After(out, Run(d, q))
  }

  /** ... and there it has to wait. */
  ghost predicate Blocks(c: Conn, q0: seq<byte>, out: seq<Event>, d: Conn, q: seq<byte>) {
    ConnOk(c) && ConnOk(d) && Run(c, q0) == Progress(d, q, out)
  }

  /** ... and there the rectangle in progress is complete. */
  ghost predicate Completes(c: Conn, q0: seq<byte>, out: seq<Event>, d: Conn, q: seq<byte>) {
    && ConnOk(c) && d.rects > 0
    && ConnOk(d.(rects := d.rects - 1, header := None))
    && Run(c, q0) == After(out + (if d.rects == 1 then EndUpdate(d) else []),
                           Run(d.(rects := d.rects - 1, header := None), q))
  }

  /** ... and there it fails. */
  ghost predicate Fails(c: Conn, q0: seq<byte>, out: seq<Event>) {
    ConnOk(c) && !Run(c, q0).c.live && Run(c, q0).out == out
  }

  /** ... and there it stays until more bytes arrive, or for good. */
  ghost predicate Halts(c: Conn, q0: seq<byte>, out: seq<Event>, d: Conn, q: seq<byte>) {
    Blocks(c, q0, out, d, q) || (!d.live && Fails(c, q0, out))
  }

  lemma ReachesItself(c: Conn, q: seq<byte>)
    requires ConnOk(c)
    ensures Reaches(c, q, [], c, q)
  {
    AfterTwice([], [], Run(c, q));
  }

  lemma ReachStep(c: Conn, q0: seq<byte>, out: seq<Event>, d: Conn, q: seq<byte>, s: Step<Conn>)
    requires Reaches(c, q0, out, d, q) && ConnStep(d, q) == s && s.Go?
    ensures s.taken <= |q| && Reaches(c, q0, out + s.out, s.state, q[s.taken..])
  {
    StepProgress(d, q);
    AfterTwice(out, s.out, Run(s.state, q[s.taken..]));
  }

  lemma ReachFinish(c: Conn, q0: seq<byte>, out: seq<Event>, d: Conn, q: seq<byte>, d': Conn, n: nat, o: seq<Event>)
    requires Reaches(c, q0, out, d, q) && d'.rects > 0 && ConnStep(d, q) == FinishRect(d', n, o)
    ensures n <= |q| && Completes(c, q0, out + o, d', q[n..])
  {
    ReachStep(c, q0, out, d, q, FinishRect(d', n, o));
    var end := if d'.rects == 1 then EndUpdate(d') else [];
    assert out + (o + end) == out + o + end;
  }

  lemma ReachWait(c: Conn, q0: seq<byte>, out: seq<Event>, d: Conn, q: seq<byte>)
    requires Reaches(c, q0, out, d, q) && ConnStep(d, q) == Wait
    ensures Blocks(c, q0, out, d, q)
  {
    assert out + [] == out;
  }

  lemma ReachStop(c: Conn, q0: seq<byte>, out: seq<Event>, d: Conn, q: seq<byte>, e: Event)
    requires Reaches(c, q0, out, d, q) && ConnStep(d, q) == Stop(e)
    ensures Fails(c, q0, out + [e])
  {
  }

  lemma ReachOk(c: Conn, q0: seq<byte>, out: seq<Event>, d: Conn, q: seq<byte>)
    requires Reaches(c, q0, out, d, q)
    ensures ConnOk(d) && (d.rects == 0 ==> d.header == None)
  {
  }

  lemma CompletesOk(c: Conn, q0: seq<byte>, out: seq<Event>, d: Conn, q: seq<byte>)
    requires Completes(c, q0, out, d, q)
    ensures d.rects > 0 && ConnOk(d.(rects := d.rects - 1, header := None))
  {
  }

  lemma HaltsOk(c: Conn, q0: seq<byte>, out: seq<Event>, d: Conn, q: seq<byte>)
    requires Halts(c, q0, out, d, q) && d.live
    ensures ConnOk(d)
  {
  }

  // What holds from here also holds from where the run came from.

  lemma ComposeCompletes(c: Conn, q0: seq<byte>, out: seq<Event>, d: Conn, q: seq<byte>, o: seq<Event>, e: Conn, q': seq<byte>)
    requires Reaches(c, q0, out, d, q) && Completes(d, q, o, e, q')
    ensures Completes(c, q0, out + o, e, q')
  {
    var end := if e.rects == 1 then EndUpdate(e) else [];
    AfterTwice(out, o + end, Run(e.(rects := e.rects - 1, header := None), q'));
    assert out + (o + end) == out + o + end;
  }

  lemma ComposeHalts(c: Conn, q0: seq<byte>, out: seq<Event>, d: Conn, q: seq<byte>, o: seq<Event>, e: Conn, q': seq<byte>)
    requires Reaches(c, q0, out, d, q) && Halts(d, q, o, e, q')
    ensures Halts(c, q0, out + o, e, q')
  {
  }
}
