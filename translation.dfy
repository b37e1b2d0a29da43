/** What each entry point and gesture of the injector does, as functions from
    the state before a call to its `Outcome`. `accept` is the platform's
    injection primitive: it says, for each event of the call, whether the
    platform took it. `now` is the clock reading of the call. */
module Translation {
  import opened InputModel
  import opened Coordinates

  // Platform key codes used by the injector.
  const KeyCodeUnknown := 0
  const KeyCodeHome := 3
  const KeyCodeBack := 4
  const KeyCodeAppSwitch := 187

  /** A synthetic key tap's UP follows its DOWN by this many milliseconds. */
  const KeyUpDelay := 10

  /** `evs` is a tap of `code` at time `t`: a DOWN and an UP sharing the down
      timestamp `t`, the UP `KeyUpDelay` later. */
  predicate IsKeyTap(evs: seq<Injected>, code: int, t: int) {
    |evs| == 2 &&
    evs[0] == Key(KeyEvent(KeyDown, code, t, t)) &&
    evs[1] == Key(KeyEvent(KeyUp, code, t, t + KeyUpDelay))
  }

  /** A key tap of `code`. Both events are attempted whatever the first one's
      fate, and the tap succeeds only if both do. */
  function InjectKeyCode(s: State, code: int, now: int, accept: Injected -> bool): (o: Outcome)
    ensures o.state == s
    ensures IsKeyTap(o.injected, code, now)
    ensures o.ok <==> AllAccepted(accept, o.injected)
  {
    var down := Key(KeyEvent(KeyDown, code, now, now));
    var up := Key(KeyEvent(KeyUp, code, now, now + KeyUpDelay));
    Outcome(s, accept(down) && accept(up), [down, up])
  }

  /** Right-click as a long press: a DOWN now and, if the platform took it,
      an UP at the same place queued for later. The caller learns only the
      DOWN's fate. */
  function InjectLongPress(cfg: Config, s: State, x: real, y: real, now: int, accept: Injected -> bool): (o: Outcome)
    requires cfg.Valid()
    ensures o.injected == [Motion(ActionDown, x, y, now, now)]
    ensures o.ok == accept(o.injected[0])
    ensures o.state.mouse == s.mouse && o.state.touch == s.touch && o.state.recents == s.recents
    ensures !o.ok ==> o.state.releases == s.releases
    ensures o.ok ==> o.state.releases == s.releases + [PendingRelease(x, y, now, now + cfg.longPressDuration)]
    ensures o.ok ==> o.state.releases[|s.releases|].due > now
    ensures Clocked(s, now) ==> Clocked(o.state, now) && OriginConsistent(o.injected)
  {
    var down := Motion(ActionDown, x, y, now, now);
    if accept(down) then
      Outcome(s.(releases := s.releases + [PendingRelease(x, y, now, now + cfg.longPressDuration)]), true, [down])
    else
      Outcome(s, false, [down])
  }

  /** A vertical swipe by `deltaY` from the mouse position, standing in for a
      wheel notch. Near the top edge it does nothing and reports success;
      otherwise it is a DOWN, a MOVE and an UP sharing one down timestamp,
      and it succeeds only if all three do. The mouse channel is left as it
      was. */
  function InjectWheelSwipe(cfg: Config, s: State, deltaY: int, now: int, accept: Injected -> bool): (o: Outcome)
    requires cfg.Valid()
    ensures o.state == s
    ensures o.injected == [] <==> s.mouse.y < cfg.wheelStep as real
    ensures o.injected == [] ==> o.ok
    ensures o.injected != [] ==>
      var endY := AtLeastZero(s.mouse.y + deltaY as real);
      o.injected == [
        Motion(ActionDown, s.mouse.x, s.mouse.y, now, now),
        Motion(ActionMove, s.mouse.x, endY, now, now + cfg.wheelDuration),
        Motion(ActionUp, s.mouse.x, endY, now, now + cfg.wheelDuration + 1)] &&
      (o.ok <==> AllAccepted(accept, o.injected))
    ensures forall k :: 0 <= k < |o.injected| ==> o.injected[k].Motion? && o.injected[k].downTime == now
    ensures OriginConsistent(o.injected)
  {
    if s.mouse.y < cfg.wheelStep as real then
      Outcome(s, true, [])
    else
      var endY := AtLeastZero(s.mouse.y + deltaY as real);
      var moveTime := now + cfg.wheelDuration;
      var down := Motion(ActionDown, s.mouse.x, s.mouse.y, now, now);
      var move := Motion(ActionMove, s.mouse.x, endY, now, moveTime);
      var up := Motion(ActionUp, s.mouse.x, endY, now, moveTime + 1);
      var evs := [down, move, up];
      assert evs[0] == down && evs[1] == move && evs[2] == up;
      Outcome(s, accept(down) && accept(move) && accept(up), evs)
  }

  /** Middle button pressed: whatever recents task was pending is dropped and
      exactly one new one is installed, due `longTapDelay` from now. Nothing
      is injected and the call always succeeds. */
  function ScheduleRecents(cfg: Config, s: State, now: int): (o: Outcome)
    requires cfg.Valid()
    ensures o.ok && o.injected == []
    ensures o.state.recents.Some? && o.state.recents.value == now + cfg.longTapDelay
    ensures o.state.recents.value > now
    ensures o.state.mouse == s.mouse && o.state.touch == s.touch && o.state.releases == s.releases
  {
    Outcome(s.(recents := Some(now + cfg.longTapDelay)), true, [])
  }

  /** Middle button released: if the recents task is still pending it is
      cancelled and HOME is tapped instead; otherwise (it already ran)
      nothing happens and the call succeeds. Either way the slot is empty
      afterwards. */
  function HandleWheelButtonUp(s: State, now: int, accept: Injected -> bool): (o: Outcome)
    ensures o.state == s.(recents := None)
    ensures s.recents.None? ==> o.ok && o.injected == []
    ensures s.recents.Some? ==> IsKeyTap(o.injected, KeyCodeHome, now) && (o.ok <==> AllAccepted(accept, o.injected))
  {
    match s.recents
    case None => Outcome(s, true, [])
    case Some(_) =>
      var tap := InjectKeyCode(s, KeyCodeHome, now, accept);
      Outcome(s.(recents := None), tap.ok, tap.injected)
  }

  /** The handler runs the pending recents task once it is due: APP_SWITCH is
      tapped and the slot is emptied. The tap's fate is reported to nobody,
      so `ok` here only says whether the task ran. */
  function FireRecents(s: State, now: int): (o: Outcome)
    ensures o.ok <==> s.recents.Some? && s.recents.value <= now
    ensures o.ok ==> o.state == s.(recents := None) && IsKeyTap(o.injected, KeyCodeAppSwitch, now)
    ensures !o.ok ==> o.state == s && o.injected == []
  {
    match s.recents
    case Some(due) =>
      if due <= now then
        Outcome(s.(recents := None), true, [Key(KeyEvent(KeyDown, KeyCodeAppSwitch, now, now)),
                                             Key(KeyEvent(KeyUp, KeyCodeAppSwitch, now, now + KeyUpDelay))])
      else
        Outcome(s, false, [])
    case None => Outcome(s, false, [])
  }

  /** The handler runs the oldest queued long-press release once it is due:
      an UP at the pressed position reusing the press's down timestamp. Its
      fate is reported to nobody; `ok` only says whether it ran. */
  function FireRelease(s: State, now: int): (o: Outcome)
    ensures o.ok <==> |s.releases| > 0 && s.releases[0].due <= now
    ensures o.ok ==>
      var r := s.releases[0];
      o.state == s.(releases := s.releases[1..]) &&
      o.injected == [Motion(ActionUp, r.x, r.y, r.downTime, now)]
    ensures !o.ok ==> o.state == s && o.injected == []
    ensures Clocked(s, now) ==> Clocked(o.state, now) && OriginConsistent(o.injected)
  {
    if |s.releases| > 0 && s.releases[0].due <= now then
      var r := s.releases[0];
      Outcome(s.(releases := s.releases[1..]), true, [Motion(ActionUp, r.x, r.y, r.downTime, now)])
    else
      Outcome(s, false, [])
  }

  /** Mask 0 or LEFT_MOVE: the pointer moves to the clamped, scaled position;
      a MOVE reusing the down timestamp is sent only while the button is down,
      and otherwise the move is only tracked and the call succeeds. */
  function TrackMouse(cfg: Config, s: State, x: int, y: int, now: int, accept: Injected -> bool): (o: Outcome)
    requires cfg.Valid()
    ensures o.state == s.(mouse := s.mouse.(x := ScaleAbs(cfg.scale, x), y := ScaleAbs(cfg.scale, y)))
    ensures o.injected == (if s.mouse.down
                           then [Motion(ActionMove, o.state.mouse.x, o.state.mouse.y, s.mouse.downTime, now)]
                           else [])
    ensures o.ok <==> AllAccepted(accept, o.injected)
    ensures Inv(s) ==> Inv(o.state)
    ensures Clocked(s, now) ==> Clocked(o.state, now) && OriginConsistent(o.injected)
  {
    var m := s.mouse.(x := ScaleAbs(cfg.scale, x), y := ScaleAbs(cfg.scale, y));
    if m.down then
      var move := Motion(ActionMove, m.x, m.y, m.downTime, now);
      assert [move][0] == move;
      Outcome(s.(mouse := m), accept(move), [move])
    else
      Outcome(s.(mouse := m), true, [])
  }

  /** LEFT_DOWN: the pointer moves to the clamped, scaled position and a DOWN
      is sent at the current time; the button counts as down, with that time
      as its origin, exactly when the platform took the DOWN. */
  function PressLeft(cfg: Config, s: State, x: int, y: int, now: int, accept: Injected -> bool): (o: Outcome)
    requires cfg.Valid()
    ensures o.state.touch == s.touch && o.state.recents == s.recents && o.state.releases == s.releases
    ensures o.state.mouse.x == ScaleAbs(cfg.scale, x) && o.state.mouse.y == ScaleAbs(cfg.scale, y)
    ensures o.injected == [Motion(ActionDown, o.state.mouse.x, o.state.mouse.y, now, now)]
    ensures o.ok == accept(o.injected[0])
    ensures o.state.mouse.down == o.ok
    ensures o.state.mouse.downTime == (if o.ok then now else 0)
    ensures Inv(s) && now > 0 ==> Inv(o.state)
    ensures Clocked(s, now) ==> Clocked(o.state, now) && OriginConsistent(o.injected)
  {
    var px, py := ScaleAbs(cfg.scale, x), ScaleAbs(cfg.scale, y);
    var down := Motion(ActionDown, px, py, now, now);
    var ok := accept(down);
    Outcome(s.(mouse := Channel(px, py, ok, if ok then now else 0)), ok, [down])
  }

  /** LEFT_UP: the pointer moves to the clamped, scaled position; an UP reusing
      the down timestamp is sent only if the button was down (otherwise the
      call succeeds with nothing sent), and the button is recorded as up
      whatever the platform did with the UP. */
  function ReleaseLeft(cfg: Config, s: State, x: int, y: int, now: int, accept: Injected -> bool): (o: Outcome)
    requires cfg.Valid()
    ensures o.state.touch == s.touch && o.state.recents == s.recents && o.state.releases == s.releases
    ensures o.state.mouse == Channel(ScaleAbs(cfg.scale, x), ScaleAbs(cfg.scale, y), false, 0)
    ensures o.injected == (if s.mouse.down
                           then [Motion(ActionUp, o.state.mouse.x, o.state.mouse.y, s.mouse.downTime, now)]
                           else [])
    ensures o.ok <==> AllAccepted(accept, o.injected)
    ensures Inv(s) ==> Inv(o.state)
    ensures Clocked(s, now) ==> Clocked(o.state, now) && OriginConsistent(o.injected)
  {
    var px, py := ScaleAbs(cfg.scale, x), ScaleAbs(cfg.scale, y);
    var released := Channel(px, py, false, 0);
    if s.mouse.down then
      var up := Motion(ActionUp, px, py, s.mouse.downTime, now);
      assert [up][0] == up;
      Outcome(s.(mouse := released), accept(up), [up])
    else
      Outcome(s.(mouse := released), true, [])
  }

  /** RIGHT_UP: the pointer moves to the clamped, scaled position and a long
      press is made there; the button state is untouched. */
  function PressRight(cfg: Config, s: State, x: int, y: int, now: int, accept: Injected -> bool): (o: Outcome)
    requires cfg.Valid()
    ensures o.state.mouse == s.mouse.(x := ScaleAbs(cfg.scale, x), y := ScaleAbs(cfg.scale, y))
    ensures o.state.touch == s.touch && o.state.recents == s.recents
    ensures o.injected == [Motion(ActionDown, o.state.mouse.x, o.state.mouse.y, now, now)]
    ensures o.ok == accept(o.injected[0])
    ensures !o.ok ==> o.state.releases == s.releases
    ensures o.ok ==>
      o.state.releases == s.releases + [PendingRelease(o.state.mouse.x, o.state.mouse.y, now, now + cfg.longPressDuration)]
    ensures Inv(s) ==> Inv(o.state)
    ensures Clocked(s, now) ==> Clocked(o.state, now) && OriginConsistent(o.injected)
  {
    var m := s.mouse.(x := ScaleAbs(cfg.scale, x), y := ScaleAbs(cfg.scale, y));
    InjectLongPress(cfg, s.(mouse := m), m.x, m.y, now, accept)
  }

  /** A mouse-style event, routed by its code. Codes the mouse channel does
      not know change nothing and fail. */
  function InjectMouse(cfg: Config, s: State, mask: Mask, x: int, y: int, now: int, accept: Injected -> bool): (o: Outcome)
    requires cfg.Valid()
    ensures !mask.IsMouse() ==> o == Outcome(s, false, [])
    ensures mask.NoButton? || mask.LeftMove? ==> o == TrackMouse(cfg, s, x, y, now, accept)
    ensures mask.LeftDown? ==> o == PressLeft(cfg, s, x, y, now, accept)
    ensures mask.LeftUp? ==> o == ReleaseLeft(cfg, s, x, y, now, accept)
    ensures mask.RightUp? ==> o == PressRight(cfg, s, x, y, now, accept)
    ensures mask.BackUp? ==> o == InjectKeyCode(s, KeyCodeBack, now, accept)
    ensures mask.WheelButtonDown? ==> o == ScheduleRecents(cfg, s, now)
    ensures mask.WheelButtonUp? ==> o == HandleWheelButtonUp(s, now, accept)
    ensures mask.WheelDown? ==> o == InjectWheelSwipe(cfg, s, -cfg.wheelStep, now, accept)
    ensures mask.WheelUp? ==> o == InjectWheelSwipe(cfg, s, cfg.wheelStep, now, accept)
    ensures Inv(s) && now > 0 ==> Inv(o.state)
  {
    if mask.NoButton? || mask.LeftMove? then
      TrackMouse(cfg, s, x, y, now, accept)
    else
      match mask
      case LeftDown => PressLeft(cfg, s, x, y, now, accept)
      case LeftUp => ReleaseLeft(cfg, s, x, y, now, accept)
      case RightUp => PressRight(cfg, s, x, y, now, accept)
      case BackUp => InjectKeyCode(s, KeyCodeBack, now, accept)
      case WheelButtonDown => ScheduleRecents(cfg, s, now)
      case WheelButtonUp => HandleWheelButtonUp(s, now, accept)
      case WheelDown => InjectWheelSwipe(cfg, s, -cfg.wheelStep, now, accept)
      case WheelUp => InjectWheelSwipe(cfg, s, cfg.wheelStep, now, accept)
      case _ => Outcome(s, false, [])
  }

  /** What a mouse-style event may change: only position-carrying codes move
      the pointer, only LEFT_DOWN and LEFT_UP touch the button state, only the
      middle button touches the recents slot, only RIGHT_UP queues a release,
      and the touch channel is never touched. */
  lemma MouseFrame(cfg: Config, s: State, mask: Mask, x: int, y: int, now: int, accept: Injected -> bool)
    requires cfg.Valid()
    ensures var o := InjectMouse(cfg, s, mask, x, y, now, accept);
      o.state.touch == s.touch &&
      (!mask.SetsMousePosition() ==> o.state.mouse == s.mouse) &&
      (!mask.LeftDown? && !mask.LeftUp? ==>
         o.state.mouse.down == s.mouse.down && o.state.mouse.downTime == s.mouse.downTime) &&
      (!mask.WheelButtonDown? && !mask.WheelButtonUp? ==> o.state.recents == s.recents) &&
      (!mask.RightUp? ==> o.state.releases == s.releases)
  {
  }

  /** PAN_START: the contact goes down at the clamped, scaled position at the
      current time; it counts as down, with that time as its origin, exactly
      when the platform took the DOWN. */
  function StartPan(cfg: Config, s: State, x: int, y: int, now: int, accept: Injected -> bool): (o: Outcome)
    requires cfg.Valid()
    ensures o.state.mouse == s.mouse && o.state.recents == s.recents && o.state.releases == s.releases
    ensures o.state.touch.x == ScaleAbs(cfg.scale, x) && o.state.touch.y == ScaleAbs(cfg.scale, y)
    ensures o.injected == [Motion(ActionDown, o.state.touch.x, o.state.touch.y, now, now)]
    ensures o.ok == accept(o.injected[0])
    ensures o.state.touch.down == o.ok
    ensures o.state.touch.downTime == (if o.ok then now else 0)
    ensures Inv(s) && now > 0 ==> Inv(o.state)
    ensures Clocked(s, now) ==> Clocked(o.state, now) && OriginConsistent(o.injected)
  {
    var px, py := ScaleAbs(cfg.scale, x), ScaleAbs(cfg.scale, y);
    var down := Motion(ActionDown, px, py, now, now);
    var ok := accept(down);
    Outcome(s.(touch := Channel(px, py, ok, if ok then now else 0)), ok, [down])
  }

  /** PAN_UPDATE: the contact moves against the delivered deltas (they point
      the opposite way to the intended motion) and is then clamped to the
      screen's top and left edges, so it never goes negative whatever it held
      before; a MOVE reusing the down timestamp is sent only while down. */
  function UpdatePan(cfg: Config, s: State, dx: int, dy: int, now: int, accept: Injected -> bool): (o: Outcome)
    requires cfg.Valid()
    ensures o.state.mouse == s.mouse && o.state.recents == s.recents && o.state.releases == s.releases
    ensures o.state.touch.x == AtLeastZero(s.touch.x - ScaleDelta(cfg.scale, dx))
    ensures o.state.touch.y == AtLeastZero(s.touch.y - ScaleDelta(cfg.scale, dy))
    ensures o.state.touch.x >= 0.0 && o.state.touch.y >= 0.0
    ensures o.state.touch.down == s.touch.down && o.state.touch.downTime == s.touch.downTime
    ensures o.injected == (if s.touch.down
                           then [Motion(ActionMove, o.state.touch.x, o.state.touch.y, s.touch.downTime, now)]
                           else [])
    ensures o.ok <==> AllAccepted(accept, o.injected)
    ensures Inv(s) ==> Inv(o.state)
    ensures Clocked(s, now) ==> Clocked(o.state, now) && OriginConsistent(o.injected)
  {
    var t := s.touch.(x := AtLeastZero(s.touch.x - ScaleDelta(cfg.scale, dx)),
                      y := AtLeastZero(s.touch.y - ScaleDelta(cfg.scale, dy)));
    if t.down then
      var move := Motion(ActionMove, t.x, t.y, t.downTime, now);
      assert [move][0] == move;
      Outcome(s.(touch := t), accept(move), [move])
    else
      Outcome(s.(touch := t), true, [])
  }

  /** PAN_END: if the contact was down it is lifted where it was, reusing its
      down timestamp (otherwise the call succeeds with nothing sent); it is
      recorded as up whatever the platform did with the UP, and its position
      is then resynchronised to the end event's coordinates. */
  function EndPan(cfg: Config, s: State, x: int, y: int, now: int, accept: Injected -> bool): (o: Outcome)
    requires cfg.Valid()
    ensures o.state.mouse == s.mouse && o.state.recents == s.recents && o.state.releases == s.releases
    ensures o.state.touch == Channel(ScaleAbs(cfg.scale, x), ScaleAbs(cfg.scale, y), false, 0)
    ensures o.injected == (if s.touch.down
                           then [Motion(ActionUp, s.touch.x, s.touch.y, s.touch.downTime, now)]
                           else [])
    ensures o.ok <==> AllAccepted(accept, o.injected)
    ensures Inv(s) ==> Inv(o.state)
    ensures Clocked(s, now) ==> Clocked(o.state, now) && OriginConsistent(o.injected)
  {
    var lifted := Channel(ScaleAbs(cfg.scale, x), ScaleAbs(cfg.scale, y), false, 0);
    if s.touch.down then
      var up := Motion(ActionUp, s.touch.x, s.touch.y, s.touch.downTime, now);
      assert [up][0] == up;
      Outcome(s.(touch := lifted), accept(up), [up])
    else
      Outcome(s.(touch := lifted), true, [])
  }

  /** A touch pan event, routed by its code; other codes change nothing and
      fail. The mouse channel, the recents slot and the release queue are
      never touched. */
  function InjectTouch(cfg: Config, s: State, mask: Mask, x: int, y: int, now: int, accept: Injected -> bool): (o: Outcome)
    requires cfg.Valid()
    ensures !mask.IsTouch() ==> o == Outcome(s, false, [])
    ensures mask.PanStart? ==> o == StartPan(cfg, s, x, y, now, accept)
    ensures mask.PanUpdate? ==> o == UpdatePan(cfg, s, x, y, now, accept)
    ensures mask.PanEnd? ==> o == EndPan(cfg, s, x, y, now, accept)
    ensures o.state.mouse == s.mouse && o.state.recents == s.recents && o.state.releases == s.releases
    ensures Inv(s) && now > 0 ==> Inv(o.state)
  {
    match mask
    case PanStart => StartPan(cfg, s, x, y, now, accept)
    case PanUpdate => UpdatePan(cfg, s, x, y, now, accept)
    case PanEnd => EndPan(cfg, s, x, y, now, accept)
    case _ => Outcome(s, false, [])
  }

  /** No mouse-style event dates a motion event before its contact's origin,
      and none leaves a down timestamp in the future. */
  lemma MouseKeepsClock(cfg: Config, s: State, mask: Mask, x: int, y: int, now: int, accept: Injected -> bool)
    requires cfg.Valid() && Clocked(s, now)
    ensures var o := InjectMouse(cfg, s, mask, x, y, now, accept);
      Clocked(o.state, now) && OriginConsistent(o.injected)
  {
    var o := InjectMouse(cfg, s, mask, x, y, now, accept);
    if mask.BackUp? || mask.WheelButtonDown? || mask.WheelButtonUp? {
      assert o.state.releases == s.releases;
      assert forall k :: 0 <= k < |o.injected| ==> o.injected[k].Key?;
    }
  }

  /** The same for touch pan events. */
  lemma TouchKeepsClock(cfg: Config, s: State, mask: Mask, x: int, y: int, now: int, accept: Injected -> bool)
    requires cfg.Valid() && Clocked(s, now)
    ensures var o := InjectTouch(cfg, s, mask, x, y, now, accept);
      Clocked(o.state, now) && OriginConsistent(o.injected)
  {
  }

  /** The pointer entry point. Without inject permission, or for a channel
      kind other than 0 (touch) and 1 (mouse), nothing changes, nothing is
      injected and the call fails. */
  function TryInjectPointer(cfg: Config, s: State, permitted: bool, kind: int, mask: Mask, x: int, y: int,
                            now: int, accept: Injected -> bool): (o: Outcome)
    requires cfg.Valid()
    ensures !permitted || (kind != 0 && kind != 1) ==> o == Outcome(s, false, [])
    ensures permitted && kind == 0 ==> o == InjectTouch(cfg, s, mask, x, y, now, accept)
    ensures permitted && kind == 1 ==> o == InjectMouse(cfg, s, mask, x, y, now, accept)
    ensures Inv(s) && now > 0 ==> Inv(o.state)
  {
    if !permitted then Outcome(s, false, [])
    else if kind == 0 then InjectTouch(cfg, s, mask, x, y, now, accept)
    else if kind == 1 then InjectMouse(cfg, s, mask, x, y, now, accept)
    else Outcome(s, false, [])
  }

  /** A remote key event this path may handle: no sequence or unicode
      marker, and a known, non-zero platform key code. */
  predicate Translatable(key: RemoteKey) {
    !key.hasSeq && !key.hasUnicode &&
    key.translated.code != KeyCodeUnknown && key.translated.code != 0
  }

  /** The key entry point. It never changes the injector's state. An event it
      may not handle is refused with nothing injected. Otherwise the
      translated event is injected; if the remote event is a press (a tap)
      and that succeeded, the matching UP follows. */
  function TryInjectKey(s: State, permitted: bool, key: RemoteKey, accept: Injected -> bool): (o: Outcome)
    ensures o.state == s
    ensures !(permitted && Translatable(key)) ==> !o.ok && o.injected == []
    ensures permitted && Translatable(key) ==> |o.injected| >= 1 && o.injected[0] == Key(key.translated)
    ensures |o.injected| <= 2
    ensures |o.injected| == 2 <==>
      permitted && Translatable(key) && key.press && accept(Key(key.translated))
    ensures |o.injected| == 2 ==> o.injected[1] == Key(KeyEvent(KeyUp, key.translated.code, 0, 0))
    ensures o.ok <==> o.injected != [] && AllAccepted(accept, o.injected)
  {
    if !permitted || key.hasSeq || key.hasUnicode then
      Outcome(s, false, [])
    else if key.translated.code == KeyCodeUnknown || key.translated.code == 0 then
      Outcome(s, false, [])
    else
      var down := Key(key.translated);
      if !accept(down) then
        Outcome(s, false, [down])
      else if key.press then
        var up := Key(KeyEvent(KeyUp, key.translated.code, 0, 0));
        Outcome(s, accept(up), [down, up])
      else
        Outcome(s, true, [down])
  }
}
