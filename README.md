# Simple clock: hand-position state machine

This project models the one piece of logic in the analog clock view of the
simple-clock Android app: the two integer hand positions that
`GraphicalClockView` keeps on a 60-unit dial, and the way they are set up and
advanced.

- **Configuration.** The constructor takes the configured start positions of
  the minute hand and the second hand. `validateAttrs` clamps a negative
  position to 0 and then reduces it modulo 60.
- **Tick.** Each firing of the view's periodic callback calls `incrementSec`,
  which sets the second position to `(s + 1) % 60`. If the new second position
  is 0, it then calls `incrementMin`, which advances the minute position the
  same way.

The Dafny module `SimpleClock` (in `graphical_clock_view.dfy`) holds:

- the class `GraphicalClockView`, with the two fields the source updates in
  place, its `Valid()` invariant, its constructor, and the methods
  `ValidateAttrs`, `IncrementMin`, `IncrementSec` and `Tick`. Each method is
  proved against the pure functions below.
- the value `ClockState` and the pure functions `Normalize`, `Advance`,
  `NextState` and `TickN` (the state after `n` ticks), with lemmas about
  what many ticks do.

Kotlin's `%` truncates toward zero while Dafny's is Euclidean. Every `%` in the
modelled code is applied to a non-negative value: either after the clamp or
after `++` on a position in [0,59]. So the two operators agree here.

A negative start position is clamped to 0 before the reduction, so -5 becomes
0, not 55 and not -5 (`NormalizeExamples`).

## Model

| member | source | states |
|---|---|---|
| SimpleClock.Normalize | app/src/main/java/com/example/simple_clock/GraphicalClockView.kt:74-83 | The normalised position is on the dial [0,59]. A negative setting becomes 0, not its modular equivalent. A non-negative setting becomes a value no larger than itself that differs from it by whole turns of 60. A setting already in [0,59] is unchanged. |
| SimpleClock.NormalizeExamples | app/src/main/java/com/example/simple_clock/GraphicalClockView.kt:75-82 | -5 normalises to 0, because the clamp comes before any remainder is taken. 75 normalises to 15. 59 stays 59 and 60 becomes 0. |
| SimpleClock.Advance | app/src/main/java/com/example/simple_clock/GraphicalClockView.kt:164-170 | `++p % 60` keeps a position on the dial. It is 0 exactly when `p` is 59. Otherwise it is `p + 1`. |
| SimpleClock.NextState | app/src/main/java/com/example/simple_clock/GraphicalClockView.kt:109-112 | One tick keeps both positions in [0,59]. The second position becomes `(sec + 1) % 60`. The minute position changes if and only if the second position was 59, and then it moves by one modulo 60. |
| SimpleClock.TickN | app/src/main/java/com/example/simple_clock/GraphicalClockView.kt:106-116 | Any number of successive callback firings keeps both positions in [0,59]. |
| SimpleClock.TickNSec | app/src/main/java/com/example/simple_clock/GraphicalClockView.kt:109 | After `n` ticks the second position is `(sec0 + n) % 60`. |
| SimpleClock.TickNMin | app/src/main/java/com/example/simple_clock/GraphicalClockView.kt:109-112 | After `n` ticks the minute position is `(min0 + (sec0 + n) / 60) % 60`: it moves once for each full turn the second hand completes. |
| SimpleClock.TickNCompose | app/src/main/java/com/example/simple_clock/GraphicalClockView.kt:106-107 | Firing `m` times and then `n` more times gives the same state as firing `m + n` times. |
| SimpleClock.MinuteOncePerRevolution | app/src/main/java/com/example/simple_clock/GraphicalClockView.kt:109-112 | From any point reached by ticking, 60 more ticks return the second position to its value and advance the minute position by exactly one unit modulo 60. With `n = 0` this is 60 ticks from the start state. |
| SimpleClock.MinuteMovesOnceWithinRevolution | app/src/main/java/com/example/simple_clock/GraphicalClockView.kt:109-112 | Among the first 60 ticks from a valid state, the minute position changes on exactly one tick: tick number `59 - sec0` (counting from 0). |
| SimpleClock.MinuteMovesOnceInEveryRevolution | app/src/main/java/com/example/simple_clock/GraphicalClockView.kt:109-112 | The same holds for every window of 60 consecutive ticks, starting after any number `j` of ticks. The minute position changes on exactly one tick of the window: tick `59 - sec_j`, where `sec_j` is the second position after `j` ticks. |
| SimpleClock.GraphicalClockView.constructor | app/src/main/java/com/example/simple_clock/GraphicalClockView.kt:47-61 | The view can be built from any two configured integers. Afterwards both positions are valid and equal to the normalised configured values. |
| SimpleClock.GraphicalClockView.ValidateAttrs | app/src/main/java/com/example/simple_clock/GraphicalClockView.kt:74-83 | Starting from any field values, it leaves both fields valid and each equal to the normalisation of its old value. |
| SimpleClock.GraphicalClockView.IncrementMin | app/src/main/java/com/example/simple_clock/GraphicalClockView.kt:164-166 | The minute position becomes `Advance` of its old value, so 59 wraps to 0. The second position is unchanged. Validity is preserved. |
| SimpleClock.GraphicalClockView.IncrementSec | app/src/main/java/com/example/simple_clock/GraphicalClockView.kt:168-170 | The second position becomes `Advance` of its old value, so 59 wraps to 0. The minute position is unchanged. Validity is preserved. |
| SimpleClock.GraphicalClockView.Tick | app/src/main/java/com/example/simple_clock/GraphicalClockView.kt:106-115 | The callback body preserves validity, and the new state equals `NextState` of the old one. |

## Left out

- Tick scheduling (`Handler.post`, `postDelayed` and `removeCallbacksAndMessages` in `start`, `stop` and `refresh`, GraphicalClockView.kt:65-71 and 105-117): event-loop plumbing. Ticks are modelled as successive calls of `Tick`, or as `TickN`. The code does not stop a second `start()` from posting a second callback, so nothing is claimed about `start` being idempotent.
- `invalidate()` (the redraw request at the end of each tick): a framework call with no effect on the hand positions.
- The geometry in `onSizeChanged` (radius, the 0.6 and 0.8 hand-length factors, the clamp of a negative radius): floating-point arithmetic.
- All drawing (`onDraw`, `drawCompass`, `drawNums`, `drawMinHand`, `drawSecHand`): `Canvas`/`Paint` calls with `Math.cos`/`Math.sin` on doubles.
- Reading the styled attributes (`obtainStyledAttributes`, `getInt` with default 0, `recycle`): the two configured integers are plain constructor arguments instead.
- 32-bit `Int`: positions are unbounded Dafny integers. Every configured 32-bit value is among them, and every later value lies in [0,59]. So the `++` in `incrementMin`/`incrementSec` can never overflow, and no wrap-around needs modelling.
- `MainActivity` (buttons that open screens through intents) and `GraphicalClockActivity` (lifecycle hooks that only call `start()`/`stop()`): UI navigation and wiring. The numerical clock screen is not part of this model.
