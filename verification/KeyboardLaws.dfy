/** What the keyboard passes on for each press and release, key by key. */
module KeyboardLaws {
  import opened Bytes
  import opened Keyboard

  /** The events that a step adds. */
  ghost predicate Adds(s: State, t: State, es: seq<Event>) {
    t.log == s.log + es
  }

  function Tapped(keysym: Keysym, code: string): seq<Event> {
    [Event(keysym, code, true), Event(keysym, code, false)]
  }

  /** The keysym of a press on this platform: left and right Super, left and right Alt
      become Alt, Super, mode switch and level three shift on a Mac. */
  function Named(p: Platform, k: Keysym): Keysym {
    if p != Mac then k
    else if k == Some(0xffeb) then Some(0xffe9)
    else if k == Some(0xffec) then Some(0xffeb)
    else if k == Some(0xffe9) then Some(0xff7e)
    else if k == Some(0xffea) then Some(0xfe03)
    else k
  }

  /** The platform will not report the release of this press. */
  predicate NoRelease(p: Platform, e: Press, k: Keysym) {
    || (p == Mac && e.metaKey && e.code !in {"MetaLeft", "MetaRight"})
    || (p == Windows && k in {Some(0xff24), Some(0xff25), Some(0xff26), Some(0xff2a), Some(0xff30)})
  }

  /** A key that is not held gets its own keysym, and a held one the keysym that it was
      pressed with. */
  function KeysymOf(p: Platform, s: State, e: Press): Keysym {
    if e.code in s.held then s.held[e.code] else Named(p, e.keysym)
  }

  /** While nothing is pending, each press is passed on once, at once, and with the
      keysym of its key; if its release will not be reported, that follows. */
  lemma PressIsPassedOn(p: Platform, s: State, e: Press)
    requires Inv(p, s) && !s.armed && e.code != "Unidentified"
    requires !(p == Mac && e.code == "CapsLock") && !(p == Windows && e.code == "ControlLeft")
    ensures var t, k := KeyDown(p, s, e), KeysymOf(p, s, e);
            if NoRelease(p, e, k) then Adds(s, t, Tapped(k, e.code)) && t.held == s.held - {e.code}
            else Adds(s, t, [Event(k, e.code, true)]) && t.held == s.held[e.code := k]
  {
    var k := KeysymOf(p, s, e);
    assert PressedKeysym(p, s, e) == k;
    assert Named(p, e.keysym) == if p == Mac then MacKeysym(e.keysym) else e.keysym;
    TapAdds(s, k, e.code);
  }

  lemma TapAdds(s: State, k: Keysym, code: string)
    ensures var t := Tap(s, k, code);
            Adds(s, t, Tapped(k, code)) && t.held == s.held - {code} && t.armed == s.armed
  {
    assert s.log + [Event(k, code, true)] + [Event(k, code, false)] == s.log + Tapped(k, code);
  }

  /** CapsLock on a Mac is reported only when its state changes: either report is a
      press and a release. */
  lemma CapsLockIsTapped(s: State, e: Press)
    requires Inv(Mac, s) && !s.armed && e.code == "CapsLock"
    ensures var k := if e.metaKey then Named(Mac, e.keysym) else Some(0xffe5);
            Adds(s, KeyDown(Mac, s, e), Tapped(k, "CapsLock"))
    ensures Adds(s, KeyUp(Mac, s, "CapsLock"), Tapped(Some(0xffe5), "CapsLock"))
  {
    TapAdds(s, Some(0xffe5), "CapsLock");
    TapAdds(s, Named(Mac, e.keysym), "CapsLock");
  }

  /** A key without a code is pressed and released at once, if its keysym is known. */
  lemma UnidentifiedIsTapped(p: Platform, s: State, e: Press)
    requires Inv(p, s) && !s.armed && e.code == "Unidentified"
    ensures Adds(s, KeyDown(p, s, e), if e.keysym in {None, Some(0)} then [] else Tapped(e.keysym, e.code))
  {
    TapAdds(s, e.keysym, e.code);
    assert s.log + [] == s.log;
  }

  /** A release is passed on with the keysym of its press, and only if there was one. */
  lemma ReleaseIsPassedOn(p: Platform, s: State, code: string)
    requires Inv(p, s) && !s.armed
    requires !(p == Mac && code == "CapsLock") && !(p == Windows && code in {"ShiftLeft", "ShiftRight"})
    ensures var t := KeyUp(p, s, code);
            && Adds(s, t, if code in s.held then [Event(s.held[code], code, false)] else [])
            && t.held == s.held - {code}
  {
    assert s.log + [] == s.log;
    assert code !in s.held ==> s.held - {code} == s.held;
  }

  function Released(s: State, code: string): seq<Event> {
    if code in s.held then [Event(s.held[code], code, false)] else []
  }

  /** On Windows both Shift keys go up with either, the reported one first. */
  lemma ShiftsGoUpTogether(s: State, code: string)
    requires Inv(Windows, s) && !s.armed && code in {"ShiftLeft", "ShiftRight"}
    ensures var t, other := KeyUp(Windows, s, code), if code == "ShiftLeft" then "ShiftRight" else "ShiftLeft";
            && Adds(s, t, Released(s, code) + Released(s, other))
            && t.held == s.held - {code, other}
  {
    var other := if code == "ShiftLeft" then "ShiftRight" else "ShiftLeft";
    var t := Release(s, code);
    ReleaseAdds(s, code);
    ReleaseAdds(t, other);
    assert Released(t, other) == Released(s, other);
    assert s.held - {code} - {other} == s.held - {code, other};
    ReleasedAlready(t, code);
    ReleasedAlready(Release(t, other), code);
    ReleasedAlready(Release(t, other), other);
    assert s.log + Released(s, code) + Released(s, other) == s.log + (Released(s, code) + Released(s, other));
  }

  lemma ReleaseAdds(s: State, code: string)
    ensures var t := Release(s, code);
            Adds(s, t, Released(s, code)) && t.held == s.held - {code} && t.armed == s.armed
  {
    assert s.log + [] == s.log;
    assert code !in s.held ==> s.held - {code} == s.held;
  }

  lemma ReleasedAlready(s: State, code: string)
    ensures code !in s.held ==> Release(s, code) == s
  {
  }

  /** Left Control on Windows waits, and passes nothing on yet. */
  lemma ControlWaits(s: State, e: Press)
    requires Inv(Windows, s) && !s.armed && e.code == "ControlLeft" && "ControlLeft" !in s.held
    requires e.keysym !in JP_BAD_KEYS
    ensures KeyDown(Windows, s, e) == s.(armed := true, ctrlTime := e.time)
  {
  }

  const CONTROL_PRESS: Event := Event(Some(0xffe3), "ControlLeft", true)

  /** Whatever comes next ends the wait: the Control press is passed on first, and then
      what this would do with Control held, unless it is right Alt in less than 50
      milliseconds; then there is a single press, with the keysym of AltGr. */
  lemma WaitEnds(s: State, a: Action)
    requires Inv(Windows, s) && s.armed && Legal(s, a)
    ensures var held := s.(armed := false, held := s.held["ControlLeft" := Some(0xffe3)], log := s.log + [CONTROL_PRESS]);
            if a.Down? && a.e.code == "AltRight" && a.e.time - s.ctrlTime < 50.0
            then Step(Windows, s, a) == Step(Windows, s.(armed := false), Down(a.e.(keysym := Some(0xfe03))))
            else Step(Windows, s, a) == Step(Windows, held, a)
  {
    if a.Down? {
      hide Tap, Send;
    }
  }
}
