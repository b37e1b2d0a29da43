/** The injector as the object it is: its fields are the channel state and
    the recents slot it updates in place, plus the handler's queue of
    long-press releases. Every method is specified by the function of the same
    name in `Translation`: the new state is that function's state, the result
    its `ok`, and the events appended to `log` its `injected`. */
module Injector {
  import opened InputModel
  import opened Coordinates
  import T = Translation

  class SystemInputInjector {
    /** Screen scale and gesture constants, read-only for the injector. */
    const cfg: Config

    var mouseX: real
    var mouseY: real
    var mouseDown: bool
    var mouseDownTime: int

    var touchX: real
    var touchY: real
    var touchDown: bool
    var touchDownTime: int

    /** The pending recents task, identified by its due time; replacing or
        clearing the slot is what cancels it. */
    var recentAction: Option<int>

    /** Long-press releases posted to the handler and not yet run. */
    var releases: seq<PendingRelease>

    /** Every event offered to the platform, in order. */
    ghost var log: seq<Injected>

    function Snapshot(): State
      reads this
    {
      State(Channel(mouseX, mouseY, mouseDown, mouseDownTime),
            Channel(touchX, touchY, touchDown, touchDownTime),
            recentAction, releases)
    }

    /** This call did what `o` describes, reporting `ok`. */
    twostate predicate Did(o: Outcome, ok: bool)
      reads this
    {
      Snapshot() == o.state && ok == o.ok && log == old(log) + o.injected
    }

    constructor (cfg: Config)
      ensures this.cfg == cfg
      ensures Snapshot() == Initial && log == []
    {
      this.cfg := cfg;
      mouseX, mouseY, mouseDown, mouseDownTime := 0.0, 0.0, false, 0;
      touchX, touchY, touchDown, touchDownTime := 0.0, 0.0, false, 0;
      recentAction := None;
      releases := [];
      log := [];
    }

    /** The platform's injection primitive: `accept` says whether it took `e`. */
    method Inject(e: Injected, accept: Injected -> bool) returns (ok: bool)
      modifies this`log
      ensures ok == accept(e)
      ensures log == old(log) + [e]
    {
      ok := accept(e);
      log := log + [e];
    }

    method InjectMotion(action: MotionAction, x: real, y: real, downTime: int, eventTime: int,
                        accept: Injected -> bool) returns (ok: bool)
      modifies this`log
      ensures ok == accept(Motion(action, x, y, downTime, eventTime))
      ensures log == old(log) + [Motion(action, x, y, downTime, eventTime)]
    {
      ok := Inject(Motion(action, x, y, downTime, eventTime), accept);
    }

    method InjectKeyCode(code: int, now: int, accept: Injected -> bool) returns (ok: bool)
      modifies this`log
      ensures Did(T.InjectKeyCode(old(Snapshot()), code, now, accept), ok)
    {
      var down := Key(KeyEvent(KeyDown, code, now, now));
      var up := Key(KeyEvent(KeyUp, code, now, now + T.KeyUpDelay));
      var okDown := Inject(down, accept);
      var okUp := Inject(up, accept);
      ok := okDown && okUp;
    }

    method InjectLongPress(x: real, y: real, now: int, accept: Injected -> bool) returns (ok: bool)
      requires cfg.Valid()
      modifies this`releases, this`log
      ensures Did(T.InjectLongPress(cfg, old(Snapshot()), x, y, now, accept), ok)
    {
      var downTime := now;
      var okDown := InjectMotion(ActionDown, x, y, downTime, downTime, accept);
      if !okDown {
        return false;
      }
      releases := releases + [PendingRelease(x, y, downTime, downTime + cfg.longPressDuration)];
      return true;
    }

    method InjectWheelSwipe(deltaY: int, now: int, accept: Injected -> bool) returns (ok: bool)
      requires cfg.Valid()
      modifies this`log
      ensures Did(T.InjectWheelSwipe(cfg, old(Snapshot()), deltaY, now, accept), ok)
    {
      if mouseY < cfg.wheelStep as real {
        return true;
      }
      var startX, startY := mouseX, mouseY;
      var endY := AtLeastZero(startY + deltaY as real);
      var downTime := now;
      var moveTime := downTime + cfg.wheelDuration;
      var upTime := moveTime + 1;
      var okDown := InjectMotion(ActionDown, startX, startY, downTime, downTime, accept);
      var okMove := InjectMotion(ActionMove, startX, endY, downTime, moveTime, accept);
      var okUp := InjectMotion(ActionUp, startX, endY, downTime, upTime, accept);
      ok := okDown && okMove && okUp;
    }

    method ScheduleRecents(now: int)
      requires cfg.Valid()
      modifies this`recentAction
      ensures Did(T.ScheduleRecents(cfg, old(Snapshot()), now), true)
    {
      recentAction := Some(now + cfg.longTapDelay);
    }

    method HandleWheelButtonUp(now: int, accept: Injected -> bool) returns (ok: bool)
      modifies this`recentAction, this`log
      ensures Did(T.HandleWheelButtonUp(old(Snapshot()), now, accept), ok)
    {
      if recentAction.Some? {
        recentAction := None;
        ok := InjectKeyCode(T.KeyCodeHome, now, accept);
      } else {
        ok := true;
      }
    }

    method InjectMouse(mask: Mask, x: int, y: int, now: int, accept: Injected -> bool) returns (ok: bool)
      requires cfg.Valid()
      modifies this
      ensures Did(T.InjectMouse(cfg, old(Snapshot()), mask, x, y, now, accept), ok)
    {
      if mask == NoButton || mask == LeftMove {
        mouseX := ScaleAbs(cfg.scale, x);
        mouseY := ScaleAbs(cfg.scale, y);
        if mouseDown {
          ok := InjectMotion(ActionMove, mouseX, mouseY, mouseDownTime, now, accept);
          return;
        }
        return true;
      }
      match mask {
        case LeftDown =>
          mouseX := ScaleAbs(cfg.scale, x);
          mouseY := ScaleAbs(cfg.scale, y);
          ok := InjectMotion(ActionDown, mouseX, mouseY, now, now, accept);
          mouseDown := ok;
          mouseDownTime := if ok then now else 0;
        case LeftUp =>
          mouseX := ScaleAbs(cfg.scale, x);
          mouseY := ScaleAbs(cfg.scale, y);
          if mouseDown {
            ok := InjectMotion(ActionUp, mouseX, mouseY, mouseDownTime, now, accept);
          } else {
            ok := true;
          }
          mouseDown := false;
          mouseDownTime := 0;
        case RightUp =>
          mouseX := ScaleAbs(cfg.scale, x);
          mouseY := ScaleAbs(cfg.scale, y);
          ok := InjectLongPress(mouseX, mouseY, now, accept);
        case BackUp =>
          ok := InjectKeyCode(T.KeyCodeBack, now, accept);
        case WheelButtonDown =>
          ScheduleRecents(now);
          ok := true;
        case WheelButtonUp =>
          ok := HandleWheelButtonUp(now, accept);
        case WheelDown =>
          ok := InjectWheelSwipe(-cfg.wheelStep, now, accept);
        case WheelUp =>
          ok := InjectWheelSwipe(cfg.wheelStep, now, accept);
        case _ =>
          ok := false;
      }
    }

    method InjectTouch(mask: Mask, x: int, y: int, now: int, accept: Injected -> bool) returns (ok: bool)
      requires cfg.Valid()
      modifies this
      ensures Did(T.InjectTouch(cfg, old(Snapshot()), mask, x, y, now, accept), ok)
    {
      match mask {
        case PanStart =>
          touchX := ScaleAbs(cfg.scale, x);
          touchY := ScaleAbs(cfg.scale, y);
          ok := InjectMotion(ActionDown, touchX, touchY, now, now, accept);
          touchDown := ok;
          touchDownTime := if ok then now else 0;
        case PanUpdate =>
          touchX := touchX - ScaleDelta(cfg.scale, x);
          touchY := touchY - ScaleDelta(cfg.scale, y);
          if touchX < 0.0 {
            touchX := 0.0;
          }
          if touchY < 0.0 {
            touchY := 0.0;
          }
          if touchDown {
            ok := InjectMotion(ActionMove, touchX, touchY, touchDownTime, now, accept);
          } else {
            ok := true;
          }
        case PanEnd =>
          if touchDown {
            ok := InjectMotion(ActionUp, touchX, touchY, touchDownTime, now, accept);
          } else {
            ok := true;
          }
          touchDown := false;
          touchDownTime := 0;
          touchX := ScaleAbs(cfg.scale, x);
          touchY := ScaleAbs(cfg.scale, y);
        case _ =>
          ok := false;
      }
    }

    /** The pointer entry point; `permitted` is the inject-permission check. */
    method TryInjectPointer(permitted: bool, kind: int, mask: Mask, x: int, y: int, now: int,
                            accept: Injected -> bool) returns (ok: bool)
      requires cfg.Valid()
      modifies this
      ensures Did(T.TryInjectPointer(cfg, old(Snapshot()), permitted, kind, mask, x, y, now, accept), ok)
    {
      if !permitted {
        return false;
      }
      if kind == 0 {
        ok := InjectTouch(mask, x, y, now, accept);
      } else if kind == 1 {
        ok := InjectMouse(mask, x, y, now, accept);
      } else {
        ok := false;
      }
    }

    /** The key entry point; `permitted` is the inject-permission check. */
    method TryInjectKey(permitted: bool, key: RemoteKey, accept: Injected -> bool) returns (ok: bool)
      modifies this`log
      ensures Did(T.TryInjectKey(old(Snapshot()), permitted, key, accept), ok)
    {
      if !permitted {
        return false;
      }
      if key.hasSeq || key.hasUnicode {
        return false;
      }
      var event := key.translated;
      if event.code == T.KeyCodeUnknown || event.code == 0 {
        return false;
      }
      var okDown := Inject(Key(event), accept);
      if !okDown {
        return false;
      }
      if key.press {
        ok := Inject(Key(KeyEvent(KeyUp, event.code, 0, 0)), accept);
        return;
      }
      return true;
    }

    /** The handler runs the recents task if it is pending and due: APP_SWITCH
        is tapped and the slot cleared. `ran` says whether it ran. */
    method FireRecentAction(now: int, accept: Injected -> bool) returns (ran: bool)
      modifies this`recentAction, this`log
      ensures Did(T.FireRecents(old(Snapshot()), now), ran)
    {
      if recentAction.Some? && recentAction.value <= now {
        var _ := InjectKeyCode(T.KeyCodeAppSwitch, now, accept);
        recentAction := None;
        return true;
      }
      return false;
    }

    /** The handler runs the oldest long-press release if it is due. */
    method FireLongPressRelease(now: int, accept: Injected -> bool) returns (ran: bool)
      modifies this`releases, this`log
      ensures Did(T.FireRelease(old(Snapshot()), now), ran)
    {
      if |releases| > 0 && releases[0].due <= now {
        var r := releases[0];
        releases := releases[1..];
        var _ := InjectMotion(ActionUp, r.x, r.y, r.downTime, now, accept);
        return true;
      }
      return false;
    }
  }
}
