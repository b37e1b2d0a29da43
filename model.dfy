/** The values the input injector works on: the remote events it receives, the
    low-level events it hands to the platform, and the state it keeps between
    calls. */
module InputModel {

  datatype Option<T> = None | Some(value: T)

  /** Values the injector reads but does not own: the shared screen scale and
      the gesture constants (WHEEL_STEP, WHEEL_DURATION, LONG_TAP_DELAY and the
      platform's tap plus long-press timeouts). */
  datatype Config = Config(
    scale: real,
    wheelStep: int,
    wheelDuration: int,
    longTapDelay: int,
    longPressDuration: int)
  {
    predicate Valid() {
      scale > 0.0 && wheelStep > 0 && wheelDuration >= 0 &&
      longTapDelay > 0 && longPressDuration > 0
    }
  }

  /** The action code (`mask`) of a remote pointer event. Every named
      constructor stands for one of the protocol's mask constants, which are
      pairwise distinct; `NoButton` is the literal 0. `Unlisted` carries any
      other code: a code that is 0 or equals a named constant is always
      represented by its own constructor, never as `Unlisted`. */
  datatype Mask =
    | NoButton | LeftMove | LeftDown | LeftUp | RightUp | BackUp
    | WheelButtonDown | WheelButtonUp | WheelDown | WheelUp
    | PanStart | PanUpdate | PanEnd
    | Unlisted(code: int)
  {
    /** The codes the mouse channel acts on. */
    predicate IsMouse() {
      !Unlisted? && !PanStart? && !PanUpdate? && !PanEnd?
    }

    /** The codes the touch channel acts on. */
    predicate IsTouch() {
      PanStart? || PanUpdate? || PanEnd?
    }

    /** The mouse codes that first move the pointer to the event's position. */
    predicate SetsMousePosition() {
      NoButton? || LeftMove? || LeftDown? || LeftUp? || RightUp?
    }
  }

  datatype MotionAction = ActionDown | ActionMove | ActionUp

  datatype KeyAction = KeyDown | KeyUp

  datatype KeyEvent = KeyEvent(action: KeyAction, code: int, downTime: int, eventTime: int)

  /** One low-level event handed to the platform's injection primitive. */
  datatype Injected =
    | Motion(action: MotionAction, x: real, y: real, downTime: int, eventTime: int)
    | Key(event: KeyEvent)

  /** A decoded remote key event. `translated` is what the external key-code
      converter makes of it; it is consulted only once the sequence and
      unicode markers have been ruled out. */
  datatype RemoteKey = RemoteKey(hasSeq: bool, hasUnicode: bool, press: bool, translated: KeyEvent)

  /** Position, down flag and down timestamp of one pointer channel. */
  datatype Channel = Channel(x: real, y: real, down: bool, downTime: int)

  /** A long-press release waiting in the handler's queue: an UP at (x, y)
      reusing the DOWN's timestamp, due at `due`. */
  datatype PendingRelease = PendingRelease(x: real, y: real, downTime: int, due: int)

  /** Everything the injector remembers between calls: the mouse and touch
      channels, the single recents slot (the due time of the pending task,
      if any) and the queued long-press releases. */
  datatype State = State(mouse: Channel, touch: Channel, recents: Option<int>, releases: seq<PendingRelease>)

  /** What one call does: the new state, the boolean reported to the caller
      and every event it attempted to inject, in order. */
  datatype Outcome = Outcome(state: State, ok: bool, injected: seq<Injected>)

  const Idle := Channel(0.0, 0.0, false, 0)

  const Initial := State(Idle, Idle, None, [])

  /** Coordinates are never negative, and a channel is down exactly when it
      holds a down timestamp (0 stands for "none"). */
  predicate ChannelInv(c: Channel) {
    c.x >= 0.0 && c.y >= 0.0 && (c.down <==> c.downTime != 0)
  }

  predicate Inv(s: State) {
    ChannelInv(s.mouse) && ChannelInv(s.touch)
  }

  /** The platform accepted every one of `evs`. */
  predicate AllAccepted(accept: Injected -> bool, evs: seq<Injected>) {
    forall k :: 0 <= k < |evs| ==> accept(evs[k])
  }

  /** Every motion event among `evs` happens no earlier than its own contact
      started: the down timestamp is an origin, never a future time. */
  predicate OriginConsistent(evs: seq<Injected>) {
    forall k :: 0 <= k < |evs| && evs[k].Motion? ==> evs[k].downTime <= evs[k].eventTime
  }

  /** The timestamps held in `s` are consistent with a clock now reading `t`
      (clock readings are never negative): no channel's down timestamp lies in the future and every queued release
      is due no earlier than its contact started. */
  predicate Clocked(s: State, t: int) {
    0 <= t && s.mouse.downTime <= t && s.touch.downTime <= t &&
    forall k :: 0 <= k < |s.releases| ==> s.releases[k].downTime <= s.releases[k].due
  }

  /** Initially both channels are up, at the origin, and nothing is pending. */
  lemma InitialState()
    ensures Inv(Initial) && Clocked(Initial, 0)
    ensures Initial.recents.None? && Initial.releases == []
  {
  }
}

/** Conversion of remote screen coordinates to local ones. */
module Coordinates {

  /** An absolute remote coordinate in local units: negative values are
      clamped to 0 before scaling. */
  function ScaleAbs(scale: real, v: int): (r: real)
    requires scale > 0.0
    ensures r >= 0.0
    ensures r == 0.0 <==> v <= 0
    ensures v >= 0 ==> r / scale == v as real
  {
    (if v > 0 then v else 0) as real * scale
  }

  /** A remote motion delta in local units: signed, no clamping. */
  function ScaleDelta(scale: real, v: int): (r: real)
    requires scale > 0.0
    ensures r < 0.0 <==> v < 0
    ensures r == 0.0 <==> v == 0
    ensures r / scale == v as real
  {
    v as real * scale
  }

  /** Clamping of a coordinate to the screen's top or left edge. */
  function AtLeastZero(v: real): (r: real)
    ensures r >= 0.0 && r >= v
    ensures v < 0.0 ==> r == 0.0
    ensures v >= 0.0 ==> r == v
  {
    if v < 0.0 then 0.0 else v
  }

  lemma ScaleExamples()
    ensures ScaleAbs(2.0, -5) == 0.0
    ensures ScaleAbs(2.0, 10) == 20.0
    ensures ScaleDelta(2.0, -3) == -6.0
  {
  }
}
