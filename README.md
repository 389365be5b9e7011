# animation-timer, modelled in Dafny

A model of `AnimationTimer` from the animation-timer JavaScript package. An
`AnimationTimer` subscribes one handler to a shared per-frame loop and turns
the elapsed time of that subscription into a normalised progress value,
emitting `tick` every frame, `stop` when a play-once session reaches its end
or is stopped, `loop` when a looping session wraps round, and `bounce` when a
bouncing session turns round.

The model has five modules:

- `Progress` (progress.dfy): the pure arithmetic, over exact reals.
  - `Math.min(1, elapsed/duration)` is `RawOnce`.
  - `x % 1` is `Frac(x) = x - floor(x)`.
  - `forwards ? p : 1 - p` is `Directed`.
  - It also holds the wrap-detection lemma.
- `Events` (events.dfy): the four events and the callback map that `on` fills and `trigger` consults. It also says which events one frame emits in each mode (`OnceFrame`, `LoopFrame`, `BounceFrame`).
- `FrameSource` (frame_source.dfy): the subscription returned by the frame loop, reduced to its `registered` and `paused` flags.
- `Timer` (timer.dfy): the `AnimationTimer` class. Its fields follow the source:
  - `duration`
  - `state`, kept as the source's numeric flags (IDLE 0, PLAYONCE 1, LOOP 2, BOUNCE 4, PAUSED +32)
  - `forwards`
  - `lastTick`
  - `handle`
  - `fn`
  - an `events` trace in place of the callbacks themselves.

  It has the five start operations, `Stop`, `Pause`, `Resume`, `State`, `On` and `Trigger`, and the three per-frame handlers. A handler's `stop` argument is the subscription that delivers the frame.
- `Sessions` (sessions.dfy): a timer driven by a sequence of frames.
  - `PlayRun`, `LoopRun` and `BounceRun` give the events a whole session emits.
  - `PlayOracle`, `LoopOracle` and `BounceOracle` restate the tick, loop and bounce assertions of the test suite.
  - Lemmas prove that every run meets those assertions and that a session emits as many `loop` or `bounce` events as whole durations have elapsed.
  - Session methods drive a real `AnimationTimer` and are proved to emit exactly the run.
  - Small scenario methods pin down the as-written behaviour of `stop`, `pause`, `resume` and restarting.

The model follows the code as written in these places, where the intended
design is different:

- `stop` is not idempotent. `_handle` is never cleared, so a second `stop()`, or a `stop()` after a play-once session ended by itself, emits `stop` again (`StopTwice`, `StopAfterCompletion`). Only a timer that never started stays silent (`StopBeforeStart`).
- Starting a session does not stop the previous subscription. The old handler keeps receiving frames and can still end the new session (`RestartLeavesOldSubscription`, `OldSubscriptionStopsLoop`).
- `pause` and `resume` add and subtract 32 from the state. `resume` without `pause` gives -32 (`ResumeWithoutPause`), and `pause` while idle still changes the state.

## Model

| member | source | states |
|---|---|---|
| `Progress.Frac` | index.js:179 | the loop/bounce progress `(elapsed/duration) % 1` lies in [0, 1) |
| `Progress.FracWhole` | index.js:179 | the fraction differs from the ratio by a whole number |
| `Progress.RawOnce` | index.js:160 | play-once progress is at most 1, non-negative for non-negative elapsed time, equals 1 exactly when elapsed >= duration |
| `Progress.RawOnceShare` | index.js:160 | below the duration, play-once progress times the duration is the elapsed time |
| `Progress.Directed` | index.js:162 | the reported tick is the progress or its complement and stays in [0, 1] |
| `Progress.DirectedOrder` | index.js:187 | the reported tick moves with the progress when playing forwards and against it when playing backwards |
| `Progress.RawOnceRises` | index.js:160 | play-once progress strictly grows with elapsed time until the duration is reached |
| `Progress.WrapDetected` | index.js:179-183 | for two ratios less than one apart, the fractional part drops (`percent < _lastTick`) iff a whole duration boundary was crossed, and otherwise strictly grows |
| `Events.Name` | index.js:162-206 | the four event names the timer triggers, `tick` only for ticks |
| `Events.Bind` | index.js:52-55 | batch registration registers every name of the batch and keeps every existing one |
| `Events.BindOverwrites` | index.js:53-55 | the last pair for a name decides its callback |
| `Events.BindKeeps` | index.js:53-55 | a name the batch does not mention keeps its callback |
| `Events.Callee` | index.js:65-68 | `trigger` invokes a callback exactly when one is registered under the name, and that one (registered values being callbacks) |
| `Events.OnceFrame` | index.js:157-174 | a play-once frame emits one tick in [0, 1] carrying the delta; `stop` follows iff elapsed >= duration, and then the tick is exactly 1 (0 backwards) |
| `Events.OnceFrameShare` | index.js:160-162 | below the duration, the tick times the duration is the elapsed time, or the remaining time when playing backwards |
| `Events.LoopFrame` | index.js:177-189 | a loop frame emits `loop` iff the fraction fell below the last tick, always before the frame's tick, which is the directed fraction |
| `Events.BounceFrame` | index.js:192-208 | a bounce frame emits `bounce` iff the fraction fell below the last tick, before the tick, which uses the already flipped direction |
| `Events.Wraps` | index.js:181 | the wrap test `percent < _lastTick`; it can only hold after a non-zero last tick, so the first frame after a start (last tick 0) never wraps |
| `FrameSource.Subscription.constructor` | index.js:77 | a new subscription is registered and not paused |
| `FrameSource.Subscription.Stop` | index.js:168 | stopping unregisters the subscription |
| `FrameSource.Subscription.Pause` | index.js:131 | pausing suspends delivery and keeps the registration |
| `FrameSource.Subscription.Resume` | index.js:140 | resuming restarts delivery and keeps the registration |
| `Timer.AnimationTimer.constructor` | index.js:31-39 | a new timer has duration 1000, state IDLE, no callbacks, no subscription |
| `Timer.AnimationTimer.Duration` | index.js:43-46 | sets the duration and nothing else |
| `Timer.AnimationTimer.On` | index.js:48-61 | a name with a callback overwrites that name's entry; a mapping is registered pair by pair; any other input leaves the map unchanged; nothing else changes |
| `Timer.AnimationTimer.Trigger` | index.js:63-70 | appends the event to the trace and invokes the callback registered under its name, if any |
| `Timer.AnimationTimer.EmitStop` | index.js:122 | `trigger('stop', …)`: appends `stop` and records in the ghost `stopLog` the state and the subscription's registration at that moment |
| `Timer.AnimationTimer.Start` | index.js:72-115 | the shared start prelude: last tick 0, the given mode and direction, a fresh registered subscription, the previous subscription untouched, duration, callbacks and trace unchanged |
| `Timer.AnimationTimer.Play` | index.js:72-79 | state PLAYONCE, forwards, last tick 0, fresh play-once subscription |
| `Timer.AnimationTimer.Reverse` | index.js:81-88 | state PLAYONCE, backwards, last tick 0, fresh play-once subscription |
| `Timer.AnimationTimer.Loop` | index.js:90-97 | state LOOP, forwards, last tick 0, fresh loop subscription |
| `Timer.AnimationTimer.LoopReverse` | index.js:99-106 | state LOOP, backwards, last tick 0, fresh loop subscription |
| `Timer.AnimationTimer.Bounce` | index.js:108-115 | state BOUNCE, forwards, last tick 0, fresh bounce subscription |
| `Timer.AnimationTimer.Stop` | index.js:117-125 | state becomes IDLE always; `stop` is emitted and the subscription unregistered iff one was ever installed, and the `stop` is emitted with the state already IDLE and the subscription already unregistered (`stopLog` gains `(IDLE, false)`) |
| `Timer.AnimationTimer.Pause` | index.js:127-134 | state grows by PAUSED; the subscription, if any, is paused; direction, last tick, duration and trace unchanged |
| `Timer.AnimationTimer.Resume` | index.js:136-143 | state shrinks by PAUSED; the subscription, if any, is resumed; direction, last tick, duration and trace unchanged |
| `Timer.AnimationTimer.State` | index.js:145-149 | returns the raw state value |
| `Timer.AnimationTimer.PlayOnceHandler` | index.js:157-174 | appends `OnceFrame`; on reaching the duration the state is IDLE and the delivering subscription unregistered, and both already hold when `stop` is emitted (`stopLog` gains `(IDLE, false)`); otherwise state, subscription and `stopLog` unchanged |
| `Timer.AnimationTimer.LoopHandler` | index.js:177-189 | appends `LoopFrame` for the previous last tick, records the new fraction; state, direction and subscription unchanged, so the session never ends itself |
| `Timer.AnimationTimer.BounceHandler` | index.js:192-208 | appends `BounceFrame`; the direction flips exactly on a wrap; records the new fraction |
| `Sessions.PlayRun` | index.js:157-174 | the events of a play-once subscription fed frame after frame: each frame's `OnceFrame`, up to and including the frame that reaches the duration |
| `Sessions.LoopRun` | index.js:177-189 | the events of a loop subscription fed frame after frame, each frame's `LoopFrame` judged against the previous frame's fraction |
| `Sessions.BounceRun` | index.js:192-208 | the events of a bounce subscription fed frame after frame, the direction flipping on each wrap |
| `Sessions.PlayRunKeepsMode` | index.js:157-174 | a play-once session emits no `loop` and no `bounce` |
| `Sessions.LoopRunKeepsMode` | index.js:177-189 | a loop session emits one or two events per frame and never `stop` or `bounce`: only an outside `stop()` ends it |
| `Sessions.BounceRunKeepsMode` | index.js:192-208 | a bounce session emits one or two events per frame and never `stop` or `loop` |
| `Sessions.PlayOracle` | test/test.js:46-50 | the play-once tests' check: each tick in [0, 1] and beyond the previous one (above it forwards, below it backwards) |
| `Sessions.LoopOracle` | test/test.js:171-182 | the looping tests' check: ticks move in the direction of play except on the first tick after a `loop`, which moves back |
| `Sessions.BounceOracle` | test/test.js:255-275 | the bouncing test's check: ticks rise while going forwards and fall while going backwards; a `bounce` resets the reference to 2 or -1 and turns the direction |
| `Sessions.PlayRunOrdered` | test/test.js:46-50 | every tick of a play-once session lies in [0, 1] and moves strictly beyond the previous one in the direction of play, for strictly increasing frames |
| `Sessions.PlayRunStops` | index.js:165-171 | a play-once session emits exactly one `stop` iff some frame reaches the duration; otherwise one tick per frame |
| `Sessions.PlayRunEnds` | index.js:162-171 | when a frame reaches the duration, `stop` is the session's last event, right after a tick of 1 (0 backwards) |
| `Sessions.StepWrap` | index.js:181 | for a step shorter than the duration, a wrap is detected iff a duration boundary was crossed |
| `Sessions.LoopRunCount` | index.js:179-183 | the number of `loop` events equals the number of whole durations elapsed, when each step is shorter than the duration |
| `Sessions.BounceRunCount` | index.js:196-200 | the number of `bounce` events equals the number of whole durations elapsed, whatever the direction |
| `Sessions.FourLoopsBy440` | test/test.js:190-196 | with duration 100 and a last frame between 400 and 440 ms, four `loop` events |
| `Sessions.FourBouncesBy440` | test/test.js:278-283 | with duration 100 and a last frame between 400 and 440 ms, four `bounce` events |
| `Sessions.LoopRunOrdered` | test/test.js:171-182 | loop ticks move on in the direction of play and move back exactly on the frame after a `loop` |
| `Sessions.BounceRunOrdered` | test/test.js:255-275 | bounce ticks rise while going forwards and fall while going backwards, turning exactly at each `bounce` |
| `Sessions.PlayTwiceStops` | test/test.js:94-124 | a first play-once session, followed by a second one only if the first reached the duration, emits two `stop` events iff both reach it |
| `Sessions.LoopSessionFacts` | test/test.js:162-244 | a loop session stopped from outside emits floor(last elapsed / duration) `loop` events and ticks that pass the looping tests' checks |
| `Sessions.BounceSessionFacts` | test/test.js:246-289 | a bounce session stopped from outside emits floor(last elapsed / duration) `bounce` events and ticks that pass the bouncing test's checks |
| `Sessions.PlayOnceStep` | index.js:157-174 | one frame delivered to a registered play-once subscription advances the trace by one step of the play-once run and unregisters it iff the frame reaches the duration |
| `Sessions.LoopStep` | index.js:177-189 | one frame delivered to a loop subscription advances the trace by one step of the loop run |
| `Sessions.BounceStep` | index.js:192-208 | one frame delivered to a bounce subscription advances the trace by one step of the bounce run, in the direction it had before the frame |
| `Sessions.FeedPlayOnce` | index.js:157-174 | delivering frames until the subscription stops appends exactly the play-once run; the subscription ends iff a frame reaches the duration, leaving the state IDLE |
| `Sessions.FeedLoop` | index.js:177-189 | delivering frames to a loop subscription appends exactly the loop run from the recorded last tick; state, duration and direction unchanged |
| `Sessions.FeedBounce` | index.js:192-208 | delivering frames to a bounce subscription appends exactly the bounce run from the recorded direction and last tick |
| `Sessions.PlayFrames` | index.js:72-88 | `play`/`reverse` followed by frames appends exactly the play-once run, ending IDLE with the subscription unregistered iff the duration is reached, PLAYONCE otherwise |
| `Sessions.PlaySession` | test/test.js:37-92 | `play`/`reverse` emit exactly the play-once run, one `stop` iff the duration is reached, and ticks that pass the tests' ordering checks |
| `Sessions.PlayAgainOnStop` | test/test.js:94-124 | calling `play` from the `stop` callback starts a fresh session that emits its own `stop`: two in all |
| `Sessions.LoopSession` | test/test.js:162-244 | `loop`/`loopReverse` then `stop` emit the loop run and one `stop`, with floor(last elapsed / duration) `loop` events and ticks that pass the tests' ordering checks |
| `Sessions.BounceSession` | test/test.js:246-289 | `bounce` then `stop` emit the bounce run and one `stop`, with floor(last elapsed / duration) `bounce` events and ticks that pass the test's ordering checks |
| `Sessions.StopBeforeStart` | index.js:117-125 | `stop` on a timer never started emits nothing and leaves it IDLE |
| `Sessions.StopTwice` | index.js:117-125 | `stop` twice after `play` emits `stop` twice |
| `Sessions.StopAfterCompletion` | index.js:120-123 | `stop` after a completed play emits a second `stop` |
| `Sessions.PauseThenResume` | index.js:127-143 | `pause` then `resume` restores the exact state value and unpauses the subscription |
| `Sessions.ResumeWithoutPause` | index.js:138 | `resume` without `pause` leaves the state at -32 |
| `Sessions.RestartLeavesOldSubscription` | index.js:72-97 | `play` then `loop` leaves two distinct registered subscriptions |
| `Sessions.OldSubscriptionStopsLoop` | index.js:165-171 | a frame of the orphaned play-once subscription ends a looping timer (state IDLE, `stop` emitted) while the loop subscription stays registered |

## Left out

- The frame loop from the `animation-loops` package (index.js:11-13) is left out: the shared frame loop, `tick.now()` and the elapsed-time bookkeeping. A subscription is only its `registered` and `paused` flags, and frames are inputs. That elapsed time freezes during a pause is the frame loop's job and is not modelled.
- The timestamps carried by `stop`, `loop` and `bounce` (`tick.now()`) are dropped from the events.
- `gm-parse-duration` (index.js:20, 44) is not part of this model. `Duration` takes a positive whole number of milliseconds; string forms and parse failures are not modelled.
- `Timer.AnimationTimer.Duration`: requires a positive duration. The source accepts anything the parser returns; a zero duration divides by zero in JavaScript, which exact reals cannot express.
- `Timer.AnimationTimer.LoopHandler`: requires non-negative elapsed time, as the frame loop supplies. Only there does `x % 1` equal `x - floor(x)`.
- `Timer.AnimationTimer.BounceHandler`: requires non-negative elapsed time, for the same reason.
- Floating point is replaced by exact real arithmetic.
- Callbacks are not executed. A re-entrant call from a `stop` callback is modelled as a call made after the handler returns. The handler does nothing after emitting `stop`, and its contract records in `stopLog` that the state is already IDLE and the subscription already stopped at that moment, which is all such a callback can observe of the timer.
- `Timer.AnimationTimer.On`: values registered by the mapping form are assumed to be callbacks. The source stores any value there; a falsy one (such as `null`) is stored but never invoked by `trigger` (index.js:65), and a truthy non-function makes `apply` throw (index.js:67). `Callee` returns whatever is registered.
- `Trigger` is modelled only for the four events the timer itself emits. The `this` binding and the extra arguments of `apply` (index.js:66-67) are left out.
- The `console.warn` of `on` (index.js:57) is left out; that branch leaves the callbacks unchanged. Also left out: `bindpolyfill`, `gm-is`, `foreach`, the fluent `return this`, and the module-level `tick.add(function(){})` (index.js:13).
- `_forwards` and `_lastTick` are undefined until a session starts. The constructor gives them `true` and `0`, which no handler reads before a start operation overwrites them.
- The wall-clock assertions of the tests (the 200-220 ms and 300-340 ms windows, test/test.js:28, 154) and the tick-count bounds (test/test.js:57, 85) depend on real scheduling and are left out.
- `Sessions.PlayRunOrdered`, `Sessions.LoopRunOrdered` and `Sessions.BounceRunOrdered` need frames whose elapsed times strictly increase. The loop and bounce lemmas also need each step, including the first from 0, to be shorter than the duration. The frame loop guarantees neither.
