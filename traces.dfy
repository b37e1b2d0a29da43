/** The injector over time: a run is a sequence of ticks, each a call of an
    entry point or a handler task, at a clock reading and with the platform's
    verdicts for that call. Properties that span calls are stated here. */
module Traces {
  import opened InputModel
  import opened Translation

  datatype Input =
    | Pointer(permitted: bool, kind: int, mask: Mask, x: int, y: int)
    | RemoteKeyEvent(permitted: bool, key: RemoteKey)
    | RecentsDue
    | ReleaseDue

  /** One call at clock reading `now`, the platform deciding by `accept`. */
  datatype Tick = Tick(input: Input, now: int, accept: Injected -> bool)

  /** The state after a run and every event it offered to the platform. */
  datatype Trace = Trace(state: State, injected: seq<Injected>)

  /** One tick. Every kind of call keeps the state invariant, given a
      positive clock. */
  function Step(cfg: Config, s: State, t: Tick): (o: Outcome)
    requires cfg.Valid()
    ensures Inv(s) && t.now > 0 ==> Inv(o.state)
  {
    match t.input
    case Pointer(permitted, kind, mask, x, y) =>
      TryInjectPointer(cfg, s, permitted, kind, mask, x, y, t.now, t.accept)
    case RemoteKeyEvent(permitted, key) => TryInjectKey(s, permitted, key, t.accept)
    case RecentsDue => FireRecents(s, t.now)
    case ReleaseDue => FireRelease(s, t.now)
  }

  /** No tick sends a motion event dated before its contact's origin, and
      none leaves a down timestamp later than its own clock reading. */
  lemma StepKeepsClock(cfg: Config, s: State, t: Tick)
    requires cfg.Valid() && Clocked(s, t.now)
    ensures var o := Step(cfg, s, t);
      Clocked(o.state, t.now) && OriginConsistent(o.injected)
  {
    var o := Step(cfg, s, t);
    match t.input
    case Pointer(permitted, kind, mask, x, y) =>
      if permitted && kind == 0 {
        TouchKeepsClock(cfg, s, mask, x, y, t.now, t.accept);
      } else if permitted && kind == 1 {
        MouseKeepsClock(cfg, s, mask, x, y, t.now, t.accept);
      }
    case RemoteKeyEvent(permitted, key) =>
      assert forall k :: 0 <= k < |o.injected| ==> o.injected[k].Key?;
    case RecentsDue =>
      assert forall k :: 0 <= k < |o.injected| ==> o.injected[k].Key?;
    case ReleaseDue =>
  }

  function Run(cfg: Config, s: State, ts: seq<Tick>): Trace
    requires cfg.Valid()
    decreases |ts|
  {
    if ts == [] then
      Trace(s, [])
    else
      var o := Step(cfg, s, ts[0]);
      var rest := Run(cfg, o.state, ts[1..]);
      Trace(rest.state, o.injected + rest.injected)
  }

  /** Clock readings never go backwards, starting from `t0`. */
  predicate Monotone(t0: int, ts: seq<Tick>)
    decreases |ts|
  {
    ts == [] || (t0 <= ts[0].now && Monotone(ts[0].now, ts[1..]))
  }

  /** Over any run with a positive clock, coordinates never go negative and
      each channel is down exactly when it holds a down timestamp. */
  lemma {:induction false} RunKeepsInv(cfg: Config, s: State, ts: seq<Tick>)
    requires cfg.Valid() && Inv(s)
    requires forall k :: 0 <= k < |ts| ==> ts[k].now > 0
    ensures Inv(Run(cfg, s, ts).state)
    decreases |ts|
  {
    if ts != [] {
      RunKeepsInv(cfg, Step(cfg, s, ts[0]).state, ts[1..]);
    }
  }

  lemma OriginConsistentAppend(a: seq<Injected>, b: seq<Injected>)
    requires OriginConsistent(a) && OriginConsistent(b)
    ensures OriginConsistent(a + b)
  {
    forall k | 0 <= k < |a + b| && (a + b)[k].Motion?
      ensures (a + b)[k].downTime <= (a + b)[k].eventTime
    {
      if k >= |a| {
        assert (a + b)[k] == b[k - |a|];
      }
    }
  }

  /** With a clock that never goes backwards, every motion event of a run is
      dated no earlier than the down timestamp it carries: moves and ups reuse
      the origin of their contact, and deferred releases run after it. */
  lemma {:induction false} RunOriginConsistent(cfg: Config, s: State, t0: int, ts: seq<Tick>)
    requires cfg.Valid() && Clocked(s, t0) && Monotone(t0, ts)
    ensures OriginConsistent(Run(cfg, s, ts).injected)
    decreases |ts|
  {
    if ts != [] {
      var o := Step(cfg, s, ts[0]);
      assert Clocked(s, ts[0].now);
      StepKeepsClock(cfg, s, ts[0]);
      RunOriginConsistent(cfg, o.state, ts[0].now, ts[1..]);
      OriginConsistentAppend(o.injected, Run(cfg, o.state, ts[1..]).injected);
    }
  }

  // ----- The middle-button race: HOME on a short press, APP_SWITCH on a long one.

  predicate IsTapOf(e: Injected, code: int) {
    e.Key? && e.event.action == KeyDown && e.event.code == code
  }

  /** How many taps of `code` begin in `evs`. */
  function Taps(evs: seq<Injected>, code: int): nat
    decreases |evs|
  {
    if evs == [] then 0 else (if IsTapOf(evs[0], code) then 1 else 0) + Taps(evs[1..], code)
  }

  lemma {:induction false} TapsAppend(a: seq<Injected>, b: seq<Injected>, code: int)
    ensures Taps(a + b, code) == Taps(a, code) + Taps(b, code)
    decreases |a|
  {
    if a != [] {
      assert (a + b)[0] == a[0];
      assert (a + b)[1..] == a[1..] + b;
      TapsAppend(a[1..], b, code);
      assert Taps(a + b, code) == (if IsTapOf(a[0], code) then 1 else 0) + Taps(a[1..] + b, code);
    } else {
      assert a + b == b;
    }
  }

  lemma {:induction false} TapsNone(evs: seq<Injected>, code: int)
    requires forall k :: 0 <= k < |evs| ==> !IsTapOf(evs[k], code)
    ensures Taps(evs, code) == 0
    decreases |evs|
  {
    if evs != [] {
      TapsNone(evs[1..], code);
    }
  }

  lemma TapsOfKeyTap(evs: seq<Injected>, c: int, t: int, code: int)
    requires IsKeyTap(evs, c, t)
    ensures Taps(evs, code) == if code == c then 1 else 0
  {
    var rest := evs[1..];
    assert rest[0] == evs[1] && rest[1..] == [];
    assert Taps(rest, code) == (if IsTapOf(evs[1], code) then 1 else 0);
    assert Taps(evs, code) == (if IsTapOf(evs[0], code) then 1 else 0) + Taps(rest, code);
  }

  /** Number of recents tasks pending in `s` (the slot holds at most one). */
  function Pending(s: State): nat {
    if s.recents.Some? then 1 else 0
  }

  /** A tick that (re)starts the recents timer: a permitted middle-button
      press on the mouse channel. */
  predicate Reschedules(t: Tick) {
    t.input.Pointer? && t.input.permitted && t.input.kind == 1 && t.input.mask == WheelButtonDown
  }

  /** A tick that is a middle-button release on the mouse channel. */
  predicate ReleasesWheel(t: Tick) {
    t.input.Pointer? && t.input.permitted && t.input.kind == 1 && t.input.mask == WheelButtonUp
  }

  /** A remote key event whose translated key is HOME or APP_SWITCH: it taps
      the same code as the recents race, so it would blur the count. */
  predicate NamesRecentsKey(t: Tick) {
    t.input.RemoteKeyEvent? &&
    (t.input.key.translated.code == KeyCodeHome || t.input.key.translated.code == KeyCodeAppSwitch)
  }

  /** Ticks that neither restart the recents timer nor carry a remote key
      event naming HOME or APP_SWITCH. Any other remote key may occur. */
  predicate Quiet(ts: seq<Tick>) {
    forall k :: 0 <= k < |ts| ==> !Reschedules(ts[k]) && !NamesRecentsKey(ts[k])
  }

  /** Every tick other than a restart and a remote HOME or APP_SWITCH key
      either leaves the recents slot alone or empties it, and it taps HOME or APP_SWITCH exactly
      when it empties a full slot; APP_SWITCH only once the task is due. */
  lemma StepResolves(cfg: Config, s: State, t: Tick)
    requires cfg.Valid() && !Reschedules(t) && !NamesRecentsKey(t)
    ensures var o := Step(cfg, s, t);
      Taps(o.injected, KeyCodeHome) + Taps(o.injected, KeyCodeAppSwitch) + Pending(o.state) == Pending(s) &&
      (o.state.recents.Some? ==> o.state.recents == s.recents) &&
      (Taps(o.injected, KeyCodeAppSwitch) > 0 ==> s.recents.Some? && s.recents.value <= t.now)
  {
    var o := Step(cfg, s, t);
    match t.input
    case Pointer(permitted, kind, mask, x, y) =>
      if permitted && kind == 1 && (mask.WheelButtonUp? || mask.BackUp?) {
        if mask.BackUp? {
          TapsOfKeyTap(o.injected, KeyCodeBack, t.now, KeyCodeHome);
          TapsOfKeyTap(o.injected, KeyCodeBack, t.now, KeyCodeAppSwitch);
        } else if s.recents.Some? {
          TapsOfKeyTap(o.injected, KeyCodeHome, t.now, KeyCodeHome);
          TapsOfKeyTap(o.injected, KeyCodeHome, t.now, KeyCodeAppSwitch);
        }
      } else {
        assert forall k :: 0 <= k < |o.injected| ==> o.injected[k].Motion?;
        TapsNone(o.injected, KeyCodeHome);
        TapsNone(o.injected, KeyCodeAppSwitch);
      }
    case RecentsDue =>
      if o.ok {
        TapsOfKeyTap(o.injected, KeyCodeAppSwitch, t.now, KeyCodeHome);
        TapsOfKeyTap(o.injected, KeyCodeAppSwitch, t.now, KeyCodeAppSwitch);
      }
    case RemoteKeyEvent(permitted, key) =>
      assert forall k :: 0 <= k < |o.injected| ==> o.injected[k].Key? && o.injected[k].event.code == key.translated.code;
      TapsNone(o.injected, KeyCodeHome);
      TapsNone(o.injected, KeyCodeAppSwitch);
    case ReleaseDue =>
      TapsNone(o.injected, KeyCodeHome);
      TapsNone(o.injected, KeyCodeAppSwitch);
  }

  /** Over a run with no new middle press and no remote HOME or APP_SWITCH
      key, pending tasks plus HOME and APP_SWITCH taps are conserved: a
      pending task is resolved at most once, into exactly one of the two, and
      nothing else produces either. */
  lemma {:induction false} RecentsConserved(cfg: Config, s: State, ts: seq<Tick>)
    requires cfg.Valid() && Quiet(ts)
    ensures var r := Run(cfg, s, ts);
      Taps(r.injected, KeyCodeHome) + Taps(r.injected, KeyCodeAppSwitch) + Pending(r.state) == Pending(s) &&
      (r.state.recents.Some? ==> r.state.recents == s.recents)
    decreases |ts|
  {
    if ts != [] {
      var o := Step(cfg, s, ts[0]);
      var rest := Run(cfg, o.state, ts[1..]);
      StepResolves(cfg, s, ts[0]);
      RecentsConserved(cfg, o.state, ts[1..]);
      TapsAppend(o.injected, rest.injected, KeyCodeHome);
      TapsAppend(o.injected, rest.injected, KeyCodeAppSwitch);
    }
  }

  /** Over a run with no new middle press and no remote HOME or APP_SWITCH
      key, while the clock stays before the task's due time, APP_SWITCH is
      never tapped and the slot holds that task or nothing. */
  lemma {:induction false} NoSwitchBeforeDue(cfg: Config, s: State, ts: seq<Tick>, due: int)
    requires cfg.Valid() && Quiet(ts)
    requires s.recents.None? || s.recents.value == due
    requires forall k :: 0 <= k < |ts| ==> ts[k].now < due
    ensures var r := Run(cfg, s, ts);
      Taps(r.injected, KeyCodeAppSwitch) == 0 && (r.state.recents.None? || r.state.recents.value == due)
    decreases |ts|
  {
    if ts != [] {
      var o := Step(cfg, s, ts[0]);
      var rest := Run(cfg, o.state, ts[1..]);
      StepResolves(cfg, s, ts[0]);
      NoSwitchBeforeDue(cfg, o.state, ts[1..], due);
      TapsAppend(o.injected, rest.injected, KeyCodeAppSwitch);
    }
  }

  /** Whatever came before, a run whose last tick releases the middle button
      leaves the recents slot empty. */
  lemma {:induction false} EndsReleased(cfg: Config, s: State, ts: seq<Tick>)
    requires cfg.Valid() && ts != [] && ReleasesWheel(ts[|ts| - 1])
    ensures Run(cfg, s, ts).state.recents.None?
    decreases |ts|
  {
    if |ts| > 1 {
      assert ts[1..][|ts| - 2] == ts[|ts| - 1];
      EndsReleased(cfg, Step(cfg, s, ts[0]).state, ts[1..]);
    }
  }

  /** A middle-button press, ticks with no new press and no remote HOME or
      APP_SWITCH key, and a release: exactly one of HOME and APP_SWITCH is
      tapped, and the slot ends empty. */
  lemma WheelButtonCycle(cfg: Config, s: State, down: Tick, middle: seq<Tick>, up: Tick)
    requires cfg.Valid() && Reschedules(down) && Quiet(middle) && ReleasesWheel(up)
    ensures var r := Run(cfg, s, [down] + middle + [up]);
      Taps(r.injected, KeyCodeHome) + Taps(r.injected, KeyCodeAppSwitch) == 1 && r.state.recents.None?
  {
    var rest := middle + [up];
    var ts := [down] + middle + [up];
    assert ts[0] == down && ts[1..] == rest;
    var o := Step(cfg, s, down);
    assert o.state.recents.Some? && o.injected == [];
    assert Quiet(rest);
    RecentsConserved(cfg, o.state, rest);
    EndsReleased(cfg, o.state, rest);
    assert Run(cfg, s, ts).injected == o.injected + Run(cfg, o.state, rest).injected == Run(cfg, o.state, rest).injected;
  }

  /** Released before the hold threshold: HOME is tapped once and APP_SWITCH
      never. */
  lemma ShortPressTapsHome(cfg: Config, s: State, down: Tick, middle: seq<Tick>, up: Tick)
    requires cfg.Valid() && Reschedules(down) && Quiet(middle) && ReleasesWheel(up)
    requires forall k :: 0 <= k < |middle| ==> middle[k].now < down.now + cfg.longTapDelay
    requires up.now < down.now + cfg.longTapDelay
    ensures var r := Run(cfg, s, [down] + middle + [up]);
      Taps(r.injected, KeyCodeHome) == 1 && Taps(r.injected, KeyCodeAppSwitch) == 0
  {
    WheelButtonCycle(cfg, s, down, middle, up);
    var rest := middle + [up];
    var ts := [down] + middle + [up];
    assert ts[0] == down && ts[1..] == rest;
    var o := Step(cfg, s, down);
    assert Quiet(rest);
    assert forall k :: 0 <= k < |rest| ==> rest[k].now < down.now + cfg.longTapDelay;
    NoSwitchBeforeDue(cfg, o.state, rest, down.now + cfg.longTapDelay);
    assert Run(cfg, s, ts).injected == o.injected + Run(cfg, o.state, rest).injected == Run(cfg, o.state, rest).injected;
  }

  /** Ticks none of which releases the middle button. */
  predicate KeepsWheel(ts: seq<Tick>) {
    forall k :: 0 <= k < |ts| ==> !ReleasesWheel(ts[k])
  }

  /** Only a middle-button release taps HOME: no other tick that leaves the
      timer alone and carries no remote HOME or APP_SWITCH key does. */
  lemma StepTapsNoHome(cfg: Config, s: State, t: Tick)
    requires cfg.Valid() && !Reschedules(t) && !NamesRecentsKey(t) && !ReleasesWheel(t)
    ensures Taps(Step(cfg, s, t).injected, KeyCodeHome) == 0
  {
    var o := Step(cfg, s, t);
    match t.input
    case Pointer(permitted, kind, mask, x, y) =>
      if permitted && kind == 1 && mask.BackUp? {
        TapsOfKeyTap(o.injected, KeyCodeBack, t.now, KeyCodeHome);
      } else {
        assert forall k :: 0 <= k < |o.injected| ==> o.injected[k].Motion?;
        TapsNone(o.injected, KeyCodeHome);
      }
    case RecentsDue =>
      if o.ok {
        TapsOfKeyTap(o.injected, KeyCodeAppSwitch, t.now, KeyCodeHome);
      }
    case RemoteKeyEvent(permitted, key) =>
      assert forall k :: 0 <= k < |o.injected| ==> o.injected[k].Key? && o.injected[k].event.code == key.translated.code;
      TapsNone(o.injected, KeyCodeHome);
    case ReleaseDue =>
      TapsNone(o.injected, KeyCodeHome);
  }

  /** From a slot that is empty or holds the task due at `due`: quiet ticks
      without a release, the handler's recents task once `due` has come, and
      more such ticks tap APP_SWITCH once per pending task, never HOME, and
      leave the slot empty. */
  lemma {:induction false} HeldAfterPress(cfg: Config, s: State, m1: seq<Tick>, fire: Tick, m2: seq<Tick>, due: int)
    requires cfg.Valid() && (s.recents.None? || s.recents.value == due)
    requires Quiet(m1) && KeepsWheel(m1) && Quiet(m2) && KeepsWheel(m2)
    requires fire.input.RecentsDue? && due <= fire.now
    ensures var r := Run(cfg, s, m1 + [fire] + m2);
      Taps(r.injected, KeyCodeAppSwitch) == Pending(s) && Taps(r.injected, KeyCodeHome) == 0 &&
      r.state.recents.None?
    decreases |m1|
  {
    var ts := m1 + [fire] + m2;
    if m1 == [] {
      assert ts[0] == fire && ts[1..] == m2;
      var o := Step(cfg, s, fire);
      var rest := Run(cfg, o.state, m2);
      if o.ok {
        TapsOfKeyTap(o.injected, KeyCodeAppSwitch, fire.now, KeyCodeHome);
        TapsOfKeyTap(o.injected, KeyCodeAppSwitch, fire.now, KeyCodeAppSwitch);
      }
      RecentsConserved(cfg, o.state, m2);
      TapsAppend(o.injected, rest.injected, KeyCodeHome);
      TapsAppend(o.injected, rest.injected, KeyCodeAppSwitch);
    } else {
      assert ts[0] == m1[0] && ts[1..] == m1[1..] + [fire] + m2;
      var o := Step(cfg, s, m1[0]);
      var rest := Run(cfg, o.state, m1[1..] + [fire] + m2);
      StepResolves(cfg, s, m1[0]);
      StepTapsNoHome(cfg, s, m1[0]);
      assert Quiet(m1[1..]) && KeepsWheel(m1[1..]) by {
        forall k | 0 <= k < |m1[1..]|
          ensures !Reschedules(m1[1..][k]) && !NamesRecentsKey(m1[1..][k]) && !ReleasesWheel(m1[1..][k])
        {
          assert m1[1..][k] == m1[k + 1];
        }
      }
      HeldAfterPress(cfg, o.state, m1[1..], fire, m2, due);
      TapsAppend(o.injected, rest.injected, KeyCodeHome);
      TapsAppend(o.injected, rest.injected, KeyCodeAppSwitch);
    }
  }

  /** Held past the hold threshold: when the handler's recents task has run,
      APP_SWITCH has been tapped once and HOME never, and the later release
      finds the slot empty, sends nothing, succeeds and changes nothing. The
      run must contain the task's tick: nothing in the model makes a due task
      run before later calls. */
  lemma HeldPressTapsSwitch(cfg: Config, s: State, down: Tick, m1: seq<Tick>, fire: Tick, m2: seq<Tick>, up: Tick)
    requires cfg.Valid() && Reschedules(down) && ReleasesWheel(up)
    requires Quiet(m1) && KeepsWheel(m1) && Quiet(m2) && KeepsWheel(m2)
    requires fire.input.RecentsDue? && down.now + cfg.longTapDelay <= fire.now
    ensures var p := Run(cfg, s, [down] + m1 + [fire] + m2);
      Taps(p.injected, KeyCodeAppSwitch) == 1 && Taps(p.injected, KeyCodeHome) == 0 &&
      p.state.recents.None? && Step(cfg, p.state, up) == Outcome(p.state, true, [])
  {
    var rest := m1 + [fire] + m2;
    var ts := [down] + m1 + [fire] + m2;
    assert ts[0] == down && ts[1..] == rest;
    var o := Step(cfg, s, down);
    assert o.state.recents == Some(down.now + cfg.longTapDelay) && o.injected == [];
    HeldAfterPress(cfg, o.state, m1, fire, m2, down.now + cfg.longTapDelay);
    assert Run(cfg, s, ts).injected == o.injected + Run(cfg, o.state, rest).injected == Run(cfg, o.state, rest).injected;
  }
}
