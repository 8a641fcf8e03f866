/** The keyboard: which keys are held, and the events that are passed on. */
module Keyboard {
  import opened Bytes

  /** No keysym is known for some keys. */
  type Keysym = Option<nat>

  const CONTROL_L: Keysym := Some(0xffe3)
  const CAPS_LOCK: Keysym := Some(0xffe5)
  const ALT_L: Keysym := Some(0xffe9)
  const ALT_R: Keysym := Some(0xffea)
  const SUPER_L: Keysym := Some(0xffeb)
  const SUPER_R: Keysym := Some(0xffec)
  const MODE_SWITCH: Keysym := Some(0xff7e)
  const ISO_LEVEL3_SHIFT: Keysym := Some(0xfe03)
  // Zenkaku_Hankaku, Eisu_toggle, Katakana, Hiragana and Romaji
  const JP_BAD_KEYS: set<Keysym> := {Some(0xff2a), Some(0xff30), Some(0xff26), Some(0xff25), Some(0xff24)}

  /** macOS includes iOS. */
  datatype Platform = Mac | Windows | Other

  /** A key press as the browser reports it. */
  datatype Press = Press(code: string, keysym: Keysym, metaKey: bool, time: real)

  /** What is passed on. */
  datatype Event = Event(keysym: Keysym, code: string, down: bool)

  datatype State = State(held: map<string, Keysym>, armed: bool, ctrlTime: real, log: seq<Event>)

  const INITIAL: State := State(map[], false, 0.0, [])

  /** A release of a key that is not held is dropped. */
  function Send(s: State, keysym: Keysym, code: string, down: bool): State {
    if down then s.(held := s.held[code := keysym], log := s.log + [Event(keysym, code, true)])
    else if code !in s.held then s
    else s.(held := s.held - {code}, log := s.log + [Event(keysym, code, false)])
  }

  function Tap(s: State, keysym: Keysym, code: string): State {
    Send(Send(s, keysym, code, true), keysym, code, false)
  }

  /** Gives up waiting for AltGr: the control key was meant. */
  function Interrupt(s: State): State {
    if s.armed then Send(s.(armed := false), CONTROL_L, "ControlLeft", true) else s
  }

  /** Control and then right Alt in less than 50 milliseconds are AltGr. */
  predicate IsAltGr(s: State, e: Press) {
    s.armed && e.code == "AltRight" && e.time - s.ctrlTime < 50.0
  }

  function Disarm(s: State, e: Press): State {
    if IsAltGr(s, e) then s.(armed := false) else Interrupt(s)
  }

  function MacKeysym(k: Keysym): Keysym {
    if k == SUPER_L then ALT_L
    else if k == SUPER_R then SUPER_L
    else if k == ALT_L then MODE_SWITCH
    else if k == ALT_R then ISO_LEVEL3_SHIFT
    else k
  }

  /** The keysym of a press: a held key keeps the one that it has. */
  function PressedKeysym(p: Platform, s: State, e: Press): Keysym {
    var keysym := if IsAltGr(s, e) then ISO_LEVEL3_SHIFT else e.keysym;
    var s' := Disarm(s, e);
    if e.code in s'.held then s'.held[e.code] else if p == Mac then MacKeysym(keysym) else keysym
  }

  function KeyDown(p: Platform, s: State, e: Press): State {
    var s' := Disarm(s, e);
    if e.code == "Unidentified" then
      if e.keysym.Some? && e.keysym.value != 0 then Tap(s', e.keysym, e.code) else s'
    else Pressed(p, s', e, PressedKeysym(p, s, e))
  }

  /** The platforms' peculiarities: keys whose release never comes are released at
      once, and left Control on Windows may be the start of AltGr. */
  function Pressed(p: Platform, s: State, e: Press, keysym: Keysym): State {
    if p == Mac && e.metaKey && e.code != "MetaLeft" && e.code != "MetaRight" then Tap(s, keysym, e.code)
    else if p == Mac && e.code == "CapsLock" then Tap(s, CAPS_LOCK, "CapsLock")
    else if p == Windows && keysym in JP_BAD_KEYS then Tap(s, keysym, e.code)
    else if e.code == "ControlLeft" && p == Windows && "ControlLeft" !in s.held then s.(armed := true, ctrlTime := e.time)
    else Send(s, keysym, e.code, true)
  }

  function Release(s: State, code: string): State {
    if code in s.held then Send(s, s.held[code], code, false) else s
  }

  function KeyUp(p: Platform, s: State, code: string): State {
    var s' := Interrupt(s);
    if p == Mac && code == "CapsLock" then Tap(s', CAPS_LOCK, "CapsLock")
    else if p == Windows && (code == "ShiftLeft" || code == "ShiftRight")
    then Release(Release(Release(s', code), "ShiftRight"), "ShiftLeft")
    else Release(s', code)
  }

  function ReleaseEach(s: State, order: seq<string>): State
  {
    if order == [] then s else Release(ReleaseEach(s, order[..|order| - 1]), order[|order| - 1])
  }

  datatype Action =
    | Down(e: Press)
    | Up(code: string)
    | Timeout
    | Blur(order: seq<string>)   // all keys up, in the order that the browser lists them

  /** All held keys are listed. */
  ghost predicate Lists(order: seq<string>, s: State) {
    forall code :: code in order <==> code in s.held
  }

  ghost predicate Legal(s: State, a: Action) {
    a.Blur? ==> Lists(a.order, Interrupt(s))
  }

  function Step(p: Platform, s: State, a: Action): State {
    match a
    case Down(e) => KeyDown(p, s, e)
    case Up(code) => KeyUp(p, s, code)
    case Timeout => Interrupt(s)
    case Blur(order) => ReleaseEach(Interrupt(s), order)
  }

  // What the other side sees

  /** The keys down after some events. */
  function Replay(log: seq<Event>): map<string, Keysym> {
    if log == [] then map[] else
    var before, e := Replay(log[..|log| - 1]), log[|log| - 1];
    if e.down then before[e.code := e.keysym] else before - {e.code}
  }

  /** A release ends a press with the same keysym, and a key pressed again has the
      keysym that it has. */
  ghost predicate Consistent(before: map<string, Keysym>, e: Event) {
    (!e.down ==> e.code in before) && (e.code in before ==> before[e.code] == e.keysym)
  }

  ghost predicate AllConsistent(log: seq<Event>) {
    forall i | 0 <= i < |log| :: Consistent(Replay(log[..i]), log[i])
  }

  ghost predicate Inv(p: Platform, s: State) {
    && Replay(s.log) == s.held && AllConsistent(s.log)
    && (s.armed ==> p == Windows && "ControlLeft" !in s.held)
    && "Unidentified" !in s.held && (p == Mac ==> "CapsLock" !in s.held)
  }

  lemma SendReplays(s: State, keysym: Keysym, code: string, down: bool)
    requires Replay(s.log) == s.held && AllConsistent(s.log)
    requires code in s.held ==> s.held[code] == keysym
    ensures var t := Send(s, keysym, code, down); Replay(t.log) == t.held && AllConsistent(t.log)
  {
    var t := Send(s, keysym, code, down);
    if t.log != s.log {
      var e := Event(keysym, code, down);
      assert t.log == s.log + [e] && t.log[..|s.log|] == s.log;
      forall i | 0 <= i < |t.log|
        ensures Consistent(Replay(t.log[..i]), t.log[i])
      {
        if i < |s.log| {
          assert t.log[..i] == s.log[..i] && t.log[i] == s.log[i];
        }
      }
    }
  }

  /** The part of the invariant that is about the events. */
  ghost predicate Told(s: State) {
    Replay(s.log) == s.held && AllConsistent(s.log)
  }

  lemma TapReplays(s: State, keysym: Keysym, code: string)
    requires Told(s) && (code in s.held ==> s.held[code] == keysym)
    ensures var t := Tap(s, keysym, code); Told(t) && t.held == s.held - {code} && t.armed == s.armed
  {
    SendReplays(s, keysym, code, true);
    SendReplays(Send(s, keysym, code, true), keysym, code, false);
  }

  lemma InterruptKeepsInv(p: Platform, s: State)
    requires Inv(p, s)
    ensures Inv(p, Interrupt(s)) && !Interrupt(s).armed
  {
    if s.armed {
      SendReplays(s.(armed := false), CONTROL_L, "ControlLeft", true);
    }
  }

  lemma ReleaseKeepsInv(p: Platform, s: State, code: string)
    requires Inv(p, s)
    ensures Inv(p, Release(s, code)) && Release(s, code).held == s.held - {code} && Release(s, code).armed == s.armed
  {
    if code in s.held {
      SendReplays(s, s.held[code], code, false);
    }
  }

  lemma TapKeepsInv(p: Platform, s: State, keysym: Keysym, code: string)
    requires Inv(p, s) && (code in s.held ==> s.held[code] == keysym)
    ensures Inv(p, Tap(s, keysym, code))
  {
    TapReplays(s, keysym, code);
    hide Replay, AllConsistent, Tap;
  }

  lemma SendKeepsInv(p: Platform, s: State, keysym: Keysym, code: string)
    requires Inv(p, s) && (code in s.held ==> s.held[code] == keysym) && !s.armed
    requires code != "Unidentified" && (p == Mac ==> code != "CapsLock")
    ensures Inv(p, Send(s, keysym, code, true))
  {
    SendReplays(s, keysym, code, true);
    hide Replay, AllConsistent;
  }

  lemma PressedKeepsInv(p: Platform, s: State, e: Press, keysym: Keysym)
    requires Inv(p, s) && (e.code in s.held ==> s.held[e.code] == keysym) && !s.armed && e.code != "Unidentified"
    ensures Inv(p, Pressed(p, s, e, keysym))
  {
    assert p == Windows && "ControlLeft" !in s.held ==> Inv(p, s.(armed := true, ctrlTime := e.time));
    assert p == Mac ==> "CapsLock" !in s.held;
    hide Inv;
    TapKeepsInv(p, s, keysym, e.code);
    if p == Mac && e.code == "CapsLock" {
      TapKeepsInv(p, s, CAPS_LOCK, "CapsLock");
    } else {
      SendKeepsInv(p, s, keysym, e.code);
    }
    hide Tap, Send;
  }

  lemma KeyDownKeepsInv(p: Platform, s: State, e: Press)
    requires Inv(p, s)
    ensures Inv(p, KeyDown(p, s, e))
  {
    var s', keysym := Disarm(s, e), PressedKeysym(p, s, e);
    InterruptKeepsInv(p, s);
    assert Inv(p, s') && !s'.armed && "Unidentified" !in s'.held;
    HeldKeysymKept(p, s, e);
    hide Inv, Interrupt, Disarm, IsAltGr, PressedKeysym, Pressed, Tap;
    if e.code == "Unidentified" {
      TapKeepsInv(p, s', e.keysym, e.code);
    } else {
      PressedKeepsInv(p, s', e, keysym);
    }
  }

  lemma HeldKeysymKept(p: Platform, s: State, e: Press)
    ensures var s' := Disarm(s, e); e.code in s'.held ==> s'.held[e.code] == PressedKeysym(p, s, e)
  {
  }

  lemma KeyUpKeepsInv(p: Platform, s: State, code: string)
    requires Inv(p, s)
    ensures Inv(p, KeyUp(p, s, code)) && code !in KeyUp(p, s, code).held
  {
    hide Inv, Interrupt, Release, Tap;
    InterruptKeepsInv(p, s);
    var s' := Interrupt(s);
    if p == Mac && code == "CapsLock" {
      CapsLockKeepsInv(s');
    } else {
      ThreeReleases(p, s', code, "ShiftRight", "ShiftLeft");
    }
  }

  lemma CapsLockKeepsInv(s: State)
    requires Inv(Mac, s)
    ensures Inv(Mac, Tap(s, CAPS_LOCK, "CapsLock")) && "CapsLock" !in Tap(s, CAPS_LOCK, "CapsLock").held
  {
    TapReplays(s, CAPS_LOCK, "CapsLock");
    TapKeepsInv(Mac, s, CAPS_LOCK, "CapsLock");
    hide Inv, Tap;
  }

  lemma ThreeReleases(p: Platform, s: State, a: string, b: string, c: string)
    requires Inv(p, s)
    ensures Inv(p, Release(s, a)) && a !in Release(s, a).held
    ensures var t := Release(Release(Release(s, a), b), c); Inv(p, t) && a !in t.held
  {
    hide Inv, Release;
    ReleaseKeepsInv(p, s, a);
    ReleaseKeepsInv(p, Release(s, a), b);
    ReleaseKeepsInv(p, Release(Release(s, a), b), c);
  }

  lemma {:induction false} ReleaseEachKeepsInv(p: Platform, s: State, order: seq<string>)
    requires Inv(p, s)
    ensures Inv(p, ReleaseEach(s, order))
    ensures forall code :: code in ReleaseEach(s, order).held <==> code in s.held && code !in order
  {
    hide Inv, Release;
    if order != [] {
      var n := |order| - 1;
      ReleaseEachKeepsInv(p, s, order[..n]);
      ReleaseKeepsInv(p, ReleaseEach(s, order[..n]), order[n]);
      assert order == order[..n] + [order[n]];
    }
  }

  lemma StepKeepsInv(p: Platform, s: State, a: Action)
    requires Inv(p, s)
    ensures Inv(p, Step(p, s, a))
  {
    hide Inv;
    match a
    case Down(e) => KeyDownKeepsInv(p, s, e);
    case Up(code) => KeyUpKeepsInv(p, s, code);
    case Timeout => InterruptKeepsInv(p, s);
    case Blur(order) =>
      InterruptKeepsInv(p, s);
      ReleaseEachKeepsInv(p, Interrupt(s), order);
  }

  function Run(p: Platform, actions: seq<Action>): State {
    if actions == [] then INITIAL else Step(p, Run(p, actions[..|actions| - 1]), actions[|actions| - 1])
  }

  lemma {:induction false} RunKeepsInv(p: Platform, actions: seq<Action>)
    ensures Inv(p, Run(p, actions))
  {
    if actions != [] {
      hide Inv, Step;
      RunKeepsInv(p, actions[..|actions| - 1]);
      StepKeepsInv(p, Run(p, actions[..|actions| - 1]), actions[|actions| - 1]);
    }
  }

  /** On every platform, after any key presses and releases, timeouts and blurs: the
      events passed on, replayed, give the held keys; every release has the keysym
      of the press that it ends, and a key pressed again keeps its keysym. */
  lemma EventsTellTheTruth(p: Platform, actions: seq<Action>)
    ensures var s := Run(p, actions); Replay(s.log) == s.held && AllConsistent(s.log)
  {
    RunKeepsInv(p, actions);
  }

  /** Waiting for AltGr means that left Control is not held, and only Windows waits. */
  lemma ArmedMeansNotHeld(p: Platform, actions: seq<Action>)
    ensures var s := Run(p, actions); s.armed ==> p == Windows && "ControlLeft" !in s.held
  {
    RunKeepsInv(p, actions);
  }

  /** When all keys go up, none stays down on the other side either. */
  lemma AllKeysUpReleasesAll(p: Platform, actions: seq<Action>, order: seq<string>)
    requires Lists(order, Interrupt(Run(p, actions)))
    ensures var s := Step(p, Run(p, actions), Blur(order)); s.held == map[] && Replay(s.log) == map[] && !s.armed
  {
    var s := Run(p, actions);
    RunKeepsInv(p, actions);
    InterruptKeepsInv(p, s);
    ReleaseEachKeepsInv(p, Interrupt(s), order);
    StillDisarmed(Interrupt(s), order);
    assert ReleaseEach(Interrupt(s), order).held.Keys == {};
  }

  lemma {:induction false} StillDisarmed(s: State, order: seq<string>)
    requires !s.armed
    ensures !ReleaseEach(s, order).armed
  {
    if order != [] {
      StillDisarmed(s, order[..|order| - 1]);
    }
  }

  /** Left Control and then right Alt on Windows: one AltGr press within 50
      milliseconds, and otherwise the two keys as they are. */
  lemma AltGrIsOneKey(s: State, ctrl: Press, alt: Press)
    requires Inv(Windows, s) && !s.armed && "ControlLeft" !in s.held && "AltRight" !in s.held
    requires ctrl.code == "ControlLeft" && ctrl.keysym == CONTROL_L && alt.code == "AltRight"
    requires alt.keysym !in JP_BAD_KEYS
    ensures var t := KeyDown(Windows, KeyDown(Windows, s, ctrl), alt);
            t.log == s.log + if alt.time - ctrl.time < 50.0 then [Event(ISO_LEVEL3_SHIFT, "AltRight", true)]
                             else [Event(CONTROL_L, "ControlLeft", true), Event(alt.keysym, "AltRight", true)]
  {
    var m := KeyDown(Windows, s, ctrl);
    assert m == s.(armed := true, ctrlTime := ctrl.time);
  }

  class Keyboard {
    var keyDownList: map<string, Keysym>
    var altGrArmed: bool
    var altGrCtrlTime: real
    var events: seq<Event>
    const platform: Platform

    ghost function Now(): State
      reads this
    {
      State(keyDownList, altGrArmed, altGrCtrlTime, events)
    }

    constructor (platform: Platform)
      ensures Now() == INITIAL && this.platform == platform
    {
      keyDownList, altGrArmed, altGrCtrlTime, events := map[], false, 0.0, [];
      this.platform := platform;
    }

    method SendKeyEvent(keysym: Keysym, code: string, down: bool)
      modifies `keyDownList, `events
      ensures Now() == Send(old(Now()), keysym, code, down)
    {
      if down {
        keyDownList := keyDownList[code := keysym];
      } else {
        if code !in keyDownList {
          return;
        }
        keyDownList := keyDownList - {code};
      }
      events := events + [Event(keysym, code, down)];
    }

    method InterruptAltGrSequence()
      modifies this
      ensures Now() == Interrupt(old(Now()))
    {
      if altGrArmed {
        altGrArmed := false;
        SendKeyEvent(CONTROL_L, "ControlLeft", true);
      }
    }

    method PressAndRelease(keysym: Keysym, code: string)
      modifies `keyDownList, `events
      ensures Now() == Tap(old(Now()), keysym, code)
    {
      SendKeyEvent(keysym, code, true);
      SendKeyEvent(keysym, code, false);
    }

    method HandleKeyDown(e: Press)
      modifies this
      ensures Now() == KeyDown(platform, old(Now()), e)
    {
      hide Send, Tap;
      var keysym := e.keysym;
      if altGrArmed {
        altGrArmed := false;
        if e.code == "AltRight" && e.time - altGrCtrlTime < 50.0 {
          keysym := ISO_LEVEL3_SHIFT;
        } else {
          SendKeyEvent(CONTROL_L, "ControlLeft", true);
        }
      }
      if e.code == "Unidentified" {
        if keysym.Some? && keysym.value != 0 {
          PressAndRelease(keysym, e.code);
        }
        return;
      }
      if platform == Mac {
        keysym := MacKeysym(keysym);
      }
      if e.code in keyDownList {
        keysym := keyDownList[e.code];
      }
      if platform == Mac && e.metaKey && e.code != "MetaLeft" && e.code != "MetaRight" {
        PressAndRelease(keysym, e.code);
        return;
      }
      if platform == Mac && e.code == "CapsLock" {
        PressAndRelease(CAPS_LOCK, "CapsLock");
        return;
      }
      if platform == Windows && keysym in JP_BAD_KEYS {
        PressAndRelease(keysym, e.code);
        return;
      }
      if e.code == "ControlLeft" && platform == Windows && "ControlLeft" !in keyDownList {
        altGrArmed := true;
        altGrCtrlTime := e.time;
        return;
      }
      SendKeyEvent(keysym, e.code, true);
    }

    method ReleaseKey(code: string)
      modifies `keyDownList, `events
      ensures Now() == Release(old(Now()), code)
    {
      if code in keyDownList {
        SendKeyEvent(keyDownList[code], code, false);
      }
    }

    method HandleKeyUp(code: string)
      modifies this
      ensures Now() == KeyUp(platform, old(Now()), code)
    {
      hide Send, Tap, Release;
      InterruptAltGrSequence();
      if platform == Mac && code == "CapsLock" {
        PressAndRelease(CAPS_LOCK, "CapsLock");
        return;
      }
      ReleaseKey(code);
      if platform == Windows && (code == "ShiftLeft" || code == "ShiftRight") {
        ReleaseKey("ShiftRight");
        ReleaseKey("ShiftLeft");
      }
    }

    /** Releases the held keys one by one; `order` is the order it took. */
    method AllKeysUp() returns (ghost order: seq<string>)
      modifies this
      ensures Now() == ReleaseEach(Interrupt(old(Now())), order) && keyDownList == map[]
    {
      hide Send, Release;
      InterruptAltGrSequence();
      order := [];
      ghost var s := Now();
      while keyDownList != map[]
        invariant Now() == ReleaseEach(s, order)
        decreases |keyDownList.Keys|
      {
        var code :| code in keyDownList;
        ReleaseKey(code);
        ReleaseShrinks(ReleaseEach(s, order), code);
        assert (order + [code])[..|order|] == order;
        order := order + [code];
      }
    }
  }

  lemma ReleaseShrinks(s: State, code: string)
    requires code in s.held
    ensures Release(s, code).held.Keys == s.held.Keys - {code}
  {
  }
}
