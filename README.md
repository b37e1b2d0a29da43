# SystemInputInjector: input translation for remote control

This project models, in Dafny, the Android input injector of a remote-desktop client. The injector
(`SystemInputInjector`) receives remote pointer and key events that have already been decoded. It
turns each one into zero or more low-level motion or key events for the platform's injection
primitive. Between calls it keeps some state:

- the mouse channel: position, button-down flag and down timestamp;
- the touch channel: the same four values, moved by pan gestures;
- a single slot for the pending "recents" task, which settles the middle-button race: HOME on a
  short press, APP_SWITCH on a long one.

It also emulates gestures the protocol cannot express directly. A right click becomes a long press
whose release runs later. A wheel notch becomes a three-event swipe.

The model has two layers.

- `Translation` (translation.dfy) states what every entry point and gesture does, as a function
  from the state before a call to an `Outcome`. An `Outcome` holds the new state, the boolean
  reported to the caller and every event offered to the platform. The properties the source
  promises are the `ensures` of these functions.
- `Injector.SystemInputInjector` (injector.dfy) is the object itself. Its fields are the source's
  fields (lines 28–38), plus the handler's queue of long-press releases and a ghost `log` of every
  event offered to the platform. Its methods update the fields step by step as the source does.
  Each is proved to produce exactly the state, result and events of its `Translation` function.

`Traces` (traces.dfy) runs the injector over any sequence of timed calls and handler tasks. It
proves the properties that span calls: coordinates never go negative, the down-flag/timestamp
invariant holds, and no event is dated before its contact's origin. It also proves the
middle-button race: a press and a release tap exactly one of HOME and APP_SWITCH, provided no new
press and no remote HOME or APP_SWITCH key come between them. HOME is tapped when the button is
released before the hold threshold, and APP_SWITCH when the recents task has run first. Other remote
keys may occur in between; a remote key that is itself HOME or APP_SWITCH is excluded, because
it taps one of the counted codes. `Scenarios` (scenarios.dfy) checks concrete call
sequences against these contracts. `InputModel` and `Coordinates` (model.dfy) hold the data types
and the coordinate conversions.

Modelling choices:

- The platform's injection primitive is a parameter `accept: Injected -> bool`, given per call. It
  says whether the platform took each event, so the verdict depends on the event alone. Two
  attempts of the same event value within one call get the same verdict. This only happens in
  `tryInjectKey`, for a press whose translated event is itself an UP with timestamps 0; see
  "## Left out".
- The inject permission is a boolean parameter `permitted`.
- The clock is a parameter `now`: one reading per call.
- Handler tasks are explicit. The recents slot holds the due time of the pending task.
  `FireRecentAction` and `FireLongPressRelease` run a task once its due time has come.
- Mask codes are a datatype with one constructor per named protocol constant, plus
  `Unlisted(code)` for any other code. The constants are defined outside the modelled file. The
  model relies only on their being distinct. A code that is 0 or equals a named constant is always
  represented by its own constructor. `Unlisted` only ever carries other codes.
- `WHEEL_STEP`, `WHEEL_DURATION`, `LONG_TAP_DELAY`, the long-press duration and the screen scale
  are fields of a `Config` value. `Config.Valid` requires a positive scale, step and delays, and a
  non-negative swipe duration.

A channel's down timestamp is `now` after a successful DOWN and 0 otherwise (lines 93 and 141).
So "down exactly when the timestamp is not 0" holds only for a clock reading above 0, and
`RunKeepsInv` assumes one.

## Model

| member | source | states |
|---|---|---|
| `Coordinates.ScaleAbs` | flutter/android/app/src/main/kotlin/com/carriez/flutter_hbb/SystemInputInjector.kt:299-302 | The result is never negative. It is 0 exactly for remote values up to 0, and for other values it is the value times the scale. |
| `Coordinates.ScaleDelta` | flutter/android/app/src/main/kotlin/com/carriez/flutter_hbb/SystemInputInjector.kt:304-306 | There is no clamping: the result has the delta's sign, is 0 only for a 0 delta, and divided by the scale gives the delta back. |
| `Coordinates.AtLeastZero` | flutter/android/app/src/main/kotlin/com/carriez/flutter_hbb/SystemInputInjector.kt:147-152 | The clamp to the screen edge maps a negative input to exactly 0 and leaves non-negative values alone, so the result is never negative and never below its input. |
| `Coordinates.ScaleExamples` | flutter/android/app/src/main/kotlin/com/carriez/flutter_hbb/SystemInputInjector.kt:299-306 | With scale 2: -5 becomes 0, 10 becomes 20, and the delta -3 becomes -6. |
| `InputModel.InitialState` | flutter/android/app/src/main/kotlin/com/carriez/flutter_hbb/SystemInputInjector.kt:28-38 | The initial state meets the invariant and has nothing pending. |
| `Translation.InjectKeyCode` | flutter/android/app/src/main/kotlin/com/carriez/flutter_hbb/SystemInputInjector.kt:223-232 | The state is unchanged. A DOWN and an UP of the code share the down timestamp, with the UP 10 ms later. Both are attempted, and the result is true only if both were accepted. |
| `Translation.InjectLongPress` | flutter/android/app/src/main/kotlin/com/carriez/flutter_hbb/SystemInputInjector.kt:211-221 | Exactly one DOWN is sent now, and the result is its fate. Only on success is one release queued: same place, same down timestamp, due later by the long-press duration. |
| `Translation.InjectWheelSwipe` | flutter/android/app/src/main/kotlin/com/carriez/flutter_hbb/SystemInputInjector.kt:174-188 | Below one step from the top it sends nothing and succeeds. Otherwise it sends DOWN, MOVE and UP, all with down timestamp `now`, at times now, now+duration and now+duration+1, ending at max(0, y+delta). The result is the conjunction of the three, and the state does not change. |
| `Translation.ScheduleRecents` | flutter/android/app/src/main/kotlin/com/carriez/flutter_hbb/SystemInputInjector.kt:190-198 | The slot ends holding exactly one new task, due later by LONG_TAP_DELAY; any earlier task is gone. Nothing is sent and the call succeeds. |
| `Translation.HandleWheelButtonUp` | flutter/android/app/src/main/kotlin/com/carriez/flutter_hbb/SystemInputInjector.kt:200-209 | The slot ends empty. A pending task is cancelled and HOME is tapped, and the result is the tap's success. With no task pending, nothing is sent and the call succeeds. |
| `Translation.FireRecents` | flutter/android/app/src/main/kotlin/com/carriez/flutter_hbb/SystemInputInjector.kt:192-195 | The task runs exactly when it is pending and due. It then taps APP_SWITCH and empties the slot; otherwise nothing changes. |
| `Translation.FireRelease` | flutter/android/app/src/main/kotlin/com/carriez/flutter_hbb/SystemInputInjector.kt:217-219 | The oldest release runs exactly when it is due. It sends an UP at the pressed position with the press's down timestamp and leaves the queue. |
| `Translation.TrackMouse` | flutter/android/app/src/main/kotlin/com/carriez/flutter_hbb/SystemInputInjector.kt:77-84 | The pointer moves to the scaled position. A MOVE carrying the down timestamp is sent exactly when the button is down; otherwise the call succeeds with nothing sent. The button state does not change. |
| `Translation.PressLeft` | flutter/android/app/src/main/kotlin/com/carriez/flutter_hbb/SystemInputInjector.kt:87-95 | One DOWN is sent at `now`. Afterwards the down flag equals its fate, and the timestamp is `now` on success and 0 on failure. The invariant is kept when `now > 0`. |
| `Translation.ReleaseLeft` | flutter/android/app/src/main/kotlin/com/carriez/flutter_hbb/SystemInputInjector.kt:96-107 | Afterwards the button is up with timestamp 0, whatever the platform did. An UP with the old down timestamp is sent only if the button was down; otherwise the call succeeds with nothing sent. |
| `Translation.PressRight` | flutter/android/app/src/main/kotlin/com/carriez/flutter_hbb/SystemInputInjector.kt:108-112 | The pointer moves to the scaled position and a long press is made there. The button state is untouched. |
| `Translation.InjectMouse` | flutter/android/app/src/main/kotlin/com/carriez/flutter_hbb/SystemInputInjector.kt:76-131 | Each mask code goes to its handler: BACK_UP to a BACK tap, WHEEL_DOWN to a swipe by -WHEEL_STEP, WHEEL_UP by +WHEEL_STEP. An unknown code changes nothing and fails. The invariant is kept when `now > 0`. |
| `Translation.MouseFrame` | flutter/android/app/src/main/kotlin/com/carriez/flutter_hbb/SystemInputInjector.kt:76-131 | A mouse event never changes the touch channel. Only LEFT_DOWN and LEFT_UP change the button, only the middle button changes the recents slot, and only RIGHT_UP queues a release. |
| `Translation.MouseKeepsClock` | flutter/android/app/src/main/kotlin/com/carriez/flutter_hbb/SystemInputInjector.kt:76-131 | No mouse event sends a motion event dated before its down timestamp, and none stores a future down timestamp. |
| `Translation.StartPan` | flutter/android/app/src/main/kotlin/com/carriez/flutter_hbb/SystemInputInjector.kt:135-143 | The contact goes down at the scaled position. The down flag equals the DOWN's fate, and the timestamp is `now` on success and 0 on failure. |
| `Translation.UpdatePan` | flutter/android/app/src/main/kotlin/com/carriez/flutter_hbb/SystemInputInjector.kt:144-157 | The scaled deltas are subtracted and each axis is clamped to 0, so the position is never negative. A MOVE with the down timestamp is sent exactly when the contact is down. |
| `Translation.EndPan` | flutter/android/app/src/main/kotlin/com/carriez/flutter_hbb/SystemInputInjector.kt:158-169 | An UP at the old position with the down timestamp is sent only if the contact was down. Afterwards the contact is always up with timestamp 0, at the scaled end coordinates. |
| `Translation.InjectTouch` | flutter/android/app/src/main/kotlin/com/carriez/flutter_hbb/SystemInputInjector.kt:133-172 | Each pan code goes to its handler; any other code changes nothing and fails. The mouse channel, the recents slot and the queue are never touched. |
| `Translation.TouchKeepsClock` | flutter/android/app/src/main/kotlin/com/carriez/flutter_hbb/SystemInputInjector.kt:133-172 | No pan event sends a motion event dated before its down timestamp, and none stores a future down timestamp. |
| `Translation.TryInjectPointer` | flutter/android/app/src/main/kotlin/com/carriez/flutter_hbb/SystemInputInjector.kt:40-49 | Without permission, or for a kind other than 0 or 1, the state is unchanged, nothing is sent and the result is false. Kind 0 goes to touch and kind 1 to mouse. |
| `Translation.TryInjectKey` | flutter/android/app/src/main/kotlin/com/carriez/flutter_hbb/SystemInputInjector.kt:51-74 | The state never changes. Without permission, with a sequence or unicode marker, or with an unknown or zero code: nothing is sent and the result is false. Otherwise the translated event is sent, followed by an UP only for a press whose DOWN succeeded. The result is true exactly when every sent event was accepted. |
| `Traces.Step` | flutter/android/app/src/main/kotlin/com/carriez/flutter_hbb/SystemInputInjector.kt:40-74 | Every call and handler task keeps the invariant when `now > 0`. |
| `Traces.StepKeepsClock` | flutter/android/app/src/main/kotlin/com/carriez/flutter_hbb/SystemInputInjector.kt:174-221 | Every call and handler task keeps the stored timestamps no later than the clock, and dates no motion event before its origin. |
| `Traces.RunKeepsInv` | flutter/android/app/src/main/kotlin/com/carriez/flutter_hbb/SystemInputInjector.kt:87-169 | Over any run with positive clock readings, mouse and touch coordinates stay non-negative. Each channel is down exactly when it holds a down timestamp. |
| `Traces.RunOriginConsistent` | flutter/android/app/src/main/kotlin/com/carriez/flutter_hbb/SystemInputInjector.kt:174-221 | With a clock that never goes backwards, every motion event of a run is dated no earlier than its down timestamp. |
| `Traces.StepResolves` | flutter/android/app/src/main/kotlin/com/carriez/flutter_hbb/SystemInputInjector.kt:190-209 | A call other than a middle press or a remote HOME or APP_SWITCH key either leaves the slot alone or empties it. It taps HOME or APP_SWITCH exactly when it empties a full slot, and APP_SWITCH only once the task is due. |
| `Traces.RecentsConserved` | flutter/android/app/src/main/kotlin/com/carriez/flutter_hbb/SystemInputInjector.kt:190-209 | Over a run with no new middle press and no remote HOME or APP_SWITCH key: pending tasks plus HOME taps plus APP_SWITCH taps stay constant. |
| `Traces.NoSwitchBeforeDue` | flutter/android/app/src/main/kotlin/com/carriez/flutter_hbb/SystemInputInjector.kt:190-198 | Over a run with no new middle press and no remote HOME or APP_SWITCH key, all before the task's due time: APP_SWITCH is never tapped, and the slot holds that task or nothing. |
| `Traces.EndsReleased` | flutter/android/app/src/main/kotlin/com/carriez/flutter_hbb/SystemInputInjector.kt:200-209 | A run ending with a middle-button release leaves the slot empty. |
| `Traces.WheelButtonCycle` | flutter/android/app/src/main/kotlin/com/carriez/flutter_hbb/SystemInputInjector.kt:116-122 | A middle press, then ticks with no new press and no remote HOME or APP_SWITCH key, then a release: exactly one of HOME and APP_SWITCH is tapped, and the slot ends empty. |
| `Traces.StepTapsNoHome` | flutter/android/app/src/main/kotlin/com/carriez/flutter_hbb/SystemInputInjector.kt:113-129 | Among ticks that are not a middle press or a remote HOME or APP_SWITCH key, only a middle-button release taps HOME: every other mouse, touch, remote key and handler tick taps HOME zero times. |
| `Traces.HeldAfterPress` | flutter/android/app/src/main/kotlin/com/carriez/flutter_hbb/SystemInputInjector.kt:190-198 | Start from a slot that is empty or holds the task due at `due`. Run ticks with no middle press, no middle release and no remote HOME or APP_SWITCH key, then the recents task at or after `due`, then more such ticks. APP_SWITCH is tapped once per pending task, HOME never, and the slot ends empty. |
| `Traces.HeldPressTapsSwitch` | flutter/android/app/src/main/kotlin/com/carriez/flutter_hbb/SystemInputInjector.kt:116-122 | A middle press, then ticks with no new press, no release and no remote HOME or APP_SWITCH key, then the recents task at or after its due time, then more such ticks. Held past the threshold like this, APP_SWITCH is tapped once and HOME never. The later release finds the slot empty, sends nothing, succeeds and changes nothing. |
| `Traces.ShortPressTapsHome` | flutter/android/app/src/main/kotlin/com/carriez/flutter_hbb/SystemInputInjector.kt:116-122 | A middle press, ticks with no new press and no remote HOME or APP_SWITCH key, and a release, all before the hold threshold: HOME is tapped once and APP_SWITCH never. |
| `Scenarios.LeftClick` | flutter/android/app/src/main/kotlin/com/carriez/flutter_hbb/SystemInputInjector.kt:87-107 | At scale 1, LEFT_DOWN (100,200) then LEFT_UP (110,210) sends a DOWN at (100,200) and an UP at (110,210). Both carry the DOWN's timestamp and both succeed. |
| `Scenarios.RefusedPress` | flutter/android/app/src/main/kotlin/com/carriez/flutter_hbb/SystemInputInjector.kt:87-107 | If the DOWN is refused, the button is not recorded as down, and the following LEFT_UP sends nothing and succeeds. |
| `Injector.SystemInputInjector.constructor` | flutter/android/app/src/main/kotlin/com/carriez/flutter_hbb/SystemInputInjector.kt:28-38 | Both channels are up at the origin, the slot is empty, and the log and queue are empty. |
| `Injector.SystemInputInjector.Inject` | flutter/android/app/src/main/kotlin/com/carriez/flutter_hbb/SystemInputInjector.kt:254-270 | The platform primitive: the result is the platform's verdict, and the event is appended to the log. |
| `Injector.SystemInputInjector.InjectMotion` | flutter/android/app/src/main/kotlin/com/carriez/flutter_hbb/SystemInputInjector.kt:234-247 | Offers one motion event with the given action, position and times, and returns its fate. |
| `Injector.SystemInputInjector.InjectKeyCode` | flutter/android/app/src/main/kotlin/com/carriez/flutter_hbb/SystemInputInjector.kt:223-232 | Does exactly what `Translation.InjectKeyCode` states. |
| `Injector.SystemInputInjector.InjectLongPress` | flutter/android/app/src/main/kotlin/com/carriez/flutter_hbb/SystemInputInjector.kt:211-221 | Does exactly what `Translation.InjectLongPress` states, posting the release to the queue. |
| `Injector.SystemInputInjector.InjectWheelSwipe` | flutter/android/app/src/main/kotlin/com/carriez/flutter_hbb/SystemInputInjector.kt:174-188 | Does exactly what `Translation.InjectWheelSwipe` states; it changes only the log. |
| `Injector.SystemInputInjector.ScheduleRecents` | flutter/android/app/src/main/kotlin/com/carriez/flutter_hbb/SystemInputInjector.kt:190-198 | Does exactly what `Translation.ScheduleRecents` states; it changes only the slot. |
| `Injector.SystemInputInjector.HandleWheelButtonUp` | flutter/android/app/src/main/kotlin/com/carriez/flutter_hbb/SystemInputInjector.kt:200-209 | Does exactly what `Translation.HandleWheelButtonUp` states. |
| `Injector.SystemInputInjector.InjectMouse` | flutter/android/app/src/main/kotlin/com/carriez/flutter_hbb/SystemInputInjector.kt:76-131 | Updates the mouse fields, the slot, the queue and the log exactly as `Translation.InjectMouse` states. |
| `Injector.SystemInputInjector.InjectTouch` | flutter/android/app/src/main/kotlin/com/carriez/flutter_hbb/SystemInputInjector.kt:133-172 | Updates the touch fields and the log exactly as `Translation.InjectTouch` states. |
| `Injector.SystemInputInjector.TryInjectPointer` | flutter/android/app/src/main/kotlin/com/carriez/flutter_hbb/SystemInputInjector.kt:40-49 | Does exactly what `Translation.TryInjectPointer` states, including the permission gate. |
| `Injector.SystemInputInjector.TryInjectKey` | flutter/android/app/src/main/kotlin/com/carriez/flutter_hbb/SystemInputInjector.kt:51-74 | Does exactly what `Translation.TryInjectKey` states; it changes only the log. |
| `Injector.SystemInputInjector.FireRecentAction` | flutter/android/app/src/main/kotlin/com/carriez/flutter_hbb/SystemInputInjector.kt:192-195 | Runs the recents task exactly as `Translation.FireRecents` states; the tap's fate is not reported. |
| `Injector.SystemInputInjector.FireLongPressRelease` | flutter/android/app/src/main/kotlin/com/carriez/flutter_hbb/SystemInputInjector.kt:217-219 | Runs the oldest due release exactly as `Translation.FireRelease` states; the UP's fate is not reported. |

## Left out

- Reflection-based injection (`injectInputEvent`, `resolveInjectMode`) is replaced by the
  `accept` verdict. These are calls into hidden platform APIs.
- `setInputSource` is not modelled. It only tags each event with its input source.
- Permission lookup (`hasInjectPermission`) is the boolean `permitted`. It depends on the
  platform.
- Protobuf decoding (`KeyEvent.parseFrom`) and `KeyEventConverter.toAndroidKeyEvent` are not
  modelled. The decoded markers and the converter's event arrive together in `RemoteKey`, and only
  the guards after them are modelled. Both are foreign library code.
- On malformed bytes, `parseFrom` throws out of `tryInjectKey` instead of returning false. The
  model has no such path: it starts from an already decoded key.
- `Translation.TryInjectKey`: the outcome of the two attempts is decided by `accept` on the event
  value alone. If a press's translated event equals `KeyEvent(KeyUp, code, 0, 0)`, both attempts
  are the same value. The model then cannot express "DOWN accepted, UP refused". The platform
  might still give them different verdicts, for example by refusing a repeated event.
- The UP that `tryInjectKey` adds after a press is built with Android's two-argument `KeyEvent`
  constructor. The model gives it timestamps 0, which is what that constructor leaves.
- Real timers: `Handler`/`Looper` and `SystemClock` become explicit due times and a `now`
  parameter. The ordering among due handler tasks is left to whoever calls the fire methods.
- Nothing in the model forces a due handler task to run before later calls. The looper would run
  it, but the model could skip it. So the held-press property (`Traces.HeldPressTapsSwitch`) is
  stated only for runs that contain the recents task's tick at or after its due time.
- The source reads `SystemClock.uptimeMillis()` more than once in a call. For example, LEFT_DOWN
  reads it for the down timestamp and again for the event time. The model uses one reading per
  call.
- `ViewConfiguration` timeouts and the mask and gesture constants live outside the modelled file.
  They are taken as `Config` values and distinct `Mask` constructors; their numeric values are not
  modelled.
- Floating-point arithmetic is replaced by exact reals, including the 32-bit integer product in
  `scaleAbs` and the `toFloat` conversions. `SCREEN_INFO.scale` is a positive `Config.scale`.
- The source reads the shared `SCREEN_INFO.scale` again on every call (lines 300 and 305), so it
  can change between calls. The model takes it as constant across calls: one `Config` for a whole
  run and for the object's lifetime.
- `MotionEvent.obtain`/`recycle`, `Log` and the `Context` parameter are not modelled. They carry
  no behaviour.
- Concurrency is not modelled. The model assumes that calls and handler tasks never overlap.
  The file only puts the handler on the main looper (line 24). It does not say which thread calls
  `tryInjectPointer` and `tryInjectKey`. `recentActionRunnable` is a plain field, written both
  by the runnable (line 194) and by the entry path (lines 191, 196 and 204). A caller on another
  thread could race the runnable on the slot, and the model does not capture that.
