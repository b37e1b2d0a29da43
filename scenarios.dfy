/** Concrete sequences of calls, checked against the contracts of `Translation`
    and `SystemInputInjector`. */
module Scenarios {
  import opened InputModel
  import opened Translation
  import opened Injector

  /** A left click at scale 1: the DOWN lands at (100, 200), and the UP at
      (110, 210) carries the DOWN's timestamp as its origin. */
  lemma LeftClick(cfg: Config, t1: int, t2: int, accept: Injected -> bool)
    requires cfg.Valid() && cfg.scale == 1.0
    requires forall e :: accept(e)
    ensures var o1 := TryInjectPointer(cfg, Initial, true, 1, LeftDown, 100, 200, t1, accept);
      var o2 := TryInjectPointer(cfg, o1.state, true, 1, LeftUp, 110, 210, t2, accept);
      o1.ok && o2.ok &&
      o1.injected == [Motion(ActionDown, 100.0, 200.0, t1, t1)] &&
      o2.injected == [Motion(ActionUp, 110.0, 210.0, t1, t2)] &&
      !o2.state.mouse.down && o2.state.mouse.downTime == 0
  {
  }

  /** The same click when the platform refuses the DOWN: the button is not
      recorded as down, so the release sends nothing and still succeeds. */
  lemma RefusedPress(cfg: Config, t1: int, t2: int, accept: Injected -> bool)
    requires cfg.Valid() && cfg.scale == 1.0
    requires forall e :: !accept(e)
    ensures var o1 := TryInjectPointer(cfg, Initial, true, 1, LeftDown, 100, 200, t1, accept);
      var o2 := TryInjectPointer(cfg, o1.state, true, 1, LeftUp, 110, 210, t2, accept);
      !o1.ok && !o1.state.mouse.down && o2.ok && o2.injected == []
  {
  }

  /** The same click driven through the object: its log holds the two events
      and no handler task is left behind. */
  method ClickThroughInjector(cfg: Config)
    requires cfg.Valid() && cfg.scale == 1.0
  {
    var injector := new SystemInputInjector(cfg);
    var accept := (e: Injected) => true;
    var ok1 := injector.TryInjectPointer(true, 1, LeftDown, 100, 200, 5, accept);
    var ok2 := injector.TryInjectPointer(true, 1, LeftUp, 110, 210, 7, accept);
    assert ok1 && ok2;
    assert injector.log == [Motion(ActionDown, 100.0, 200.0, 5, 5), Motion(ActionUp, 110.0, 210.0, 5, 7)];
    assert !injector.mouseDown && injector.recentAction.None? && injector.releases == [];
  }

  /** A quick middle click: the release cancels the recents task and taps
      HOME; when the task's due time comes, nothing runs. */
  method QuickMiddleClick(cfg: Config)
    requires cfg.Valid()
  {
    var injector := new SystemInputInjector(cfg);
    var accept := (e: Injected) => true;
    var okDown := injector.TryInjectPointer(true, 1, WheelButtonDown, 0, 0, 5, accept);
    var okUp := injector.TryInjectPointer(true, 1, WheelButtonUp, 0, 0, 6, accept);
    var ran := injector.FireRecentAction(5 + cfg.longTapDelay, accept);
    assert okDown && okUp && !ran;
    assert injector.log == [Key(KeyEvent(KeyDown, KeyCodeHome, 6, 6)), Key(KeyEvent(KeyUp, KeyCodeHome, 6, 16))];
  }

  /** A held middle button: the recents task runs at its due time and taps
      APP_SWITCH; the later release finds the slot empty and does nothing. */
  method HeldMiddleButton(cfg: Config)
    requires cfg.Valid()
  {
    var injector := new SystemInputInjector(cfg);
    var accept := (e: Injected) => true;
    var due := 5 + cfg.longTapDelay;
    var okDown := injector.TryInjectPointer(true, 1, WheelButtonDown, 0, 0, 5, accept);
    var ran := injector.FireRecentAction(due, accept);
    var okUp := injector.TryInjectPointer(true, 1, WheelButtonUp, 0, 0, due + 1, accept);
    assert okDown && ran && okUp;
    assert injector.log == [Key(KeyEvent(KeyDown, KeyCodeAppSwitch, due, due)),
                            Key(KeyEvent(KeyUp, KeyCodeAppSwitch, due, due + 10))];
  }

  /** A right click: a DOWN now, and the release, run by the handler once due,
      lifts the contact at the same place with the DOWN's timestamp. */
  method RightClick(cfg: Config)
    requires cfg.Valid() && cfg.scale == 1.0
  {
    var injector := new SystemInputInjector(cfg);
    var accept := (e: Injected) => true;
    var ok := injector.TryInjectPointer(true, 1, RightUp, 30, 40, 5, accept);
    var early := injector.FireLongPressRelease(5, accept);
    var ran := injector.FireLongPressRelease(5 + cfg.longPressDuration, accept);
    assert ok && !early && ran;
    assert injector.log == [Motion(ActionDown, 30.0, 40.0, 5, 5),
                            Motion(ActionUp, 30.0, 40.0, 5, 5 + cfg.longPressDuration)];
  }
}
