# Countdown timer state manager, modelled and verified in Dafny

This project models the core of a small countdown-timer library: a
controller that keeps the remaining whole seconds and a lifecycle phase
(idle, running, paused, completed), is driven one second at a time while
running, and exposes start, pause, resume, reset and restart. Requested
durations are normalised into [1, 8553600] seconds (1 second to 99 days),
and the remaining total is shown as days, hours, minutes and seconds.

Files, one module each:

- `optional.dfy` (`Optional`): an argument the caller may leave out
  (`None` is `undefined`), used for the duration of `reset` and `restart`.
- `js_number.dfy` (`JsNumber`): the JavaScript `number` values the core
  reads (NaN, the two infinities, finite values as exact reals), with the
  comparisons, truthiness and `Math.trunc` that the core relies on.
- `types.dfy` (`Types`): the four lifecycle phases, the six actions (only
  `Reset` and `Restart` carry a duration) and the state record pairing
  remaining seconds with a phase. These are closed datatypes, so "exactly
  four phases", "exactly six actions" and "nothing else in the record" hold
  by construction.
- `time.dfy` (`Time`): the duration validator and the time decomposer, with
  the clamping, truncation, idempotence, decomposition round-trip and
  uniqueness lemmas.
- `reducer.dfy` (`Reducer`): the reducer as a class `Store` whose
  `Dispatch` updates the record in place, specified by the pure function
  `Reduce`; the reducer never looks at the current phase.
- `hook.dfy` (`Hook`): the controller as a class `Countdown` that owns a
  `Store` and the remembered initial duration. Its methods send an action
  only from the phases that allow it. `Tick` is one second of the driving
  loop: the timer's Tick, then the completion check. The class invariant
  `Valid()` says three things. The remembered duration is always valid.
  The count stays in [0, 8553600]. The count is zero exactly when the
  countdown is completed.
- `scenarios.dfy` (`Scenarios`): caller sequences from the library's own
  tests, with the observed values proved from the contracts.

Behaviour of the code that a reader might not expect, kept in the model:

- `reset` and `restart` remember a truthy duration argument *before* the
  phase check. So a call that the check suppresses (reset while running,
  restart while idle) still changes the duration that later argument-less
  calls use (src/hooks/useCountdown.ts:60-64 and 83-87).
- A falsy argument means "no argument". That covers 0 (and -0) and also
  NaN, not only `undefined`. `reset(0)` therefore re-arms with the
  remembered duration, not with 1.
- The reducer's Tick is not clamped (0 becomes -1). The model's `Tick`
  runs the timer's Tick and the completion check as one step, and a
  running countdown always has at least one second left (`Valid()`). So
  the count is never negative in the model (see `Hook.Countdown.Tick`
  under "## Left out" for the render the source shows in between).

## Model

| member | source | states |
|---|---|---|
| `JsNumber.LessThan` | src/utils/time.ts:25 | `x < k` is false for NaN and +Infinity, true for -Infinity, and the real comparison for finite `x` |
| `JsNumber.GreaterThan` | src/utils/time.ts:29 | `x > k` is false for NaN and -Infinity, true for +Infinity, and the real comparison for finite `x` |
| `JsNumber.ComparisonTrichotomy` | src/utils/time.ts:25-31 | NaN is neither below nor above a bound; any other number is exactly one of below, above or equal |
| `JsNumber.Truthy` | src/hooks/useCountdown.ts:56-60 | an optional argument is truthy exactly when it is given, not NaN and not zero; the infinities are truthy |
| `JsNumber.Trunc` | src/utils/time.ts:33 | `Math.trunc` drops the fractional part toward zero: for non-negative input the result is the largest integer not above it, for negative input the smallest integer not below it |
| `Time.GetDays` | src/utils/time.ts:8-10 | the whole days `d` with `d*86400 <= total < (d+1)*86400` |
| `Time.GetHours` | src/utils/time.ts:12-14 | the hour component is in [0, 23], and it is the whole hours `h` with `h*3600 <= total mod 86400 < (h+1)*3600` |
| `Time.GetMinutes` | src/utils/time.ts:16-18 | the minute component is in [0, 59], and it is the whole minutes `m` with `m*60 <= total mod 3600 < (m+1)*60` |
| `Time.GetSeconds` | src/utils/time.ts:20-22 | the second component is in [0, 59] and differs from the total by a whole number of minutes |
| `Time.DecomposeRoundTrip` | src/utils/time.ts:8-22 | days·86400 + hours·3600 + minutes·60 + seconds gives back the total |
| `Time.DecomposeUnique` | src/utils/time.ts:8-22 | any days, hours < 24, minutes < 60, seconds < 60 that sum to the total are exactly the four computed components |
| `Time.MaximumDecomposes` | src/hooks/useCountdown.test.ts:45-52 | 8553600 seconds is 99 days, 0 hours, 0 minutes, 0 seconds |
| `Time.ValidateInitialSeconds` | src/utils/time.ts:24-34 | every input, NaN and infinities included, yields an integer in [1, 8553600] |
| `Time.ValidateBelowMinimum` | src/utils/time.ts:25-27 | NaN, negative infinity and any value below 1 give 1 |
| `Time.ValidateAboveMaximum` | src/utils/time.ts:29-31 | positive infinity and any value above 8553600 give 8553600 |
| `Time.ValidateTruncatesInRange` | src/utils/time.ts:33 | a value in [1, 8553600] gives the largest integer not above it; an integral value (the bounds included) gives itself |
| `Time.ValidateIdempotent` | src/utils/time.ts:24-34 | validating a validated duration returns it unchanged |
| `Time.ValidateDropsFraction` | src/hooks/useCountdown.test.ts:36-43 | 60.15 → 60, which shows as 1 minute 0 seconds |
| `Time.ValidateExamples` | src/utils/time.test.ts:34-60 | 30 → 30, 0 → 1, NaN → 1, -10 → 1, 8640000 → 8553600, 8553601 → 8553600 |
| `Reducer.Reduce` | src/reducers/countdown.ts:5-31 | Start/Pause keep the seconds, Reset(n)/Restart(n) install n, Tick takes one off unclamped and keeps the phase, Complete gives 0; the next phase is Running, Paused, Idle or Completed exactly for Start or Restart, Pause, Reset, Complete respectively, or for a Tick from that phase |
| `Reducer.ReduceIgnoresPhase` | src/reducers/countdown.ts:5-31 | the next seconds never depend on the current phase; the next state depends on it only through Tick, which keeps it |
| `Reducer.Store.constructor` | src/hooks/useCountdown.ts:13-16 | the record starts with exactly the given seconds and phase |
| `Reducer.Store.Dispatch` | src/reducers/countdown.ts:5-31 | Start: running, seconds kept. Pause: paused, seconds kept. Reset(n): idle with n. Tick: seconds minus one, unclamped, phase kept. Complete: completed with 0. Restart(n): running with n. The result equals `Reduce` of the old record, from any phase |
| `Hook.TickStep` | src/hooks/useCountdown.ts:18-27 | one second: outside Running nothing changes; running with more than one second left takes exactly one off; running with one or fewer ends Completed at 0 |
| `Hook.CountsDown` | src/hooks/useCountdown.ts:18-27 | k < n seconds of running from n leave n − k seconds, still running |
| `Hook.IdleTicksChangeNothing` | src/hooks/useCountdown.ts:18-23 | outside Running any number of seconds changes nothing |
| `Hook.RunsToCompletion` | src/hooks/useCountdown.ts:18-27 | started from n ≥ 1, after n or more seconds the countdown is Completed at 0 |
| `Hook.Countdown.constructor` | src/hooks/useCountdown.ts:8-16 | the count and the remembered duration are both the validated request, the phase is Idle, and the invariant holds |
| `Hook.Countdown.SetInitialSeconds` | src/hooks/useCountdown.ts:37-40 | the remembered duration becomes the validated argument; the count is untouched |
| `Hook.Countdown.Start` | src/hooks/useCountdown.ts:42-46 | from Idle: Running with the count kept; from any other phase (Running included) nothing changes |
| `Hook.Countdown.Pause` | src/hooks/useCountdown.ts:48-52 | from Running: Paused with the count kept; otherwise nothing changes |
| `Hook.Countdown.Resume` | src/hooks/useCountdown.ts:71-75 | from Paused: Running with the count kept; otherwise nothing changes |
| `Hook.Countdown.Reset` | src/hooks/useCountdown.ts:54-69 | a truthy argument is validated and remembered whatever the phase, a falsy one keeps the remembered duration; while Running the count and phase are unchanged, otherwise Idle with the remembered duration |
| `Hook.Countdown.Restart` | src/hooks/useCountdown.ts:77-92 | same remembering rule; while Idle the count and phase are unchanged, otherwise Running with the remembered duration |
| `Hook.Countdown.Tick` | src/hooks/useCountdown.ts:18-27 | equals `TickStep`; while running it takes exactly one second off and completes exactly when one second was left; the invariant (count never negative, zero iff completed) is kept |
| `Hook.Countdown.Display` | src/hooks/useCountdown.ts:94-99 | shows the count, with days ≤ 99, hours < 24, minutes and seconds < 60, which recombine to the count |
| `Scenarios.BasicUsage` | src/hooks/useCountdown.test.ts:86-113 | on 60 seconds: start → running 60, pause → paused 60, resume → running 60, pause then reset() → idle 60 |
| `Scenarios.ResetWhileRunningIsIgnored` | src/hooks/useCountdown.test.ts:323-336 | reset() while running leaves running at 60 |
| `Scenarios.RestartWhileIdleStillRemembers` | src/hooks/useCountdown.test.ts:309-321 | restart(30) while idle leaves idle at 60 but remembers 30, so a following reset() gives idle at 30 |
| `Scenarios.CompleteAndReset` | src/hooks/useCountdown.test.ts:145-165 | on 5 seconds, start and five seconds give completed at 0; reset() gives idle at 5 |
| `Scenarios.ResetWithZeroFallsBack` | src/hooks/useCountdown.ts:54-66 | reset(0) from paused re-arms with the remembered 10, not with 1 |
| `Scenarios.OverlongRequestShowsMaximum` | src/hooks/useCountdown.test.ts:45-52 | a request of 10000000 shows 8553600 seconds as 99 days, 0 hours, 0 minutes, 0 seconds |

## Left out

- React machinery (`useRef`, `useCallback`, effect dependency lists, `useImmerReducer`, re-rendering): the ref and the reducer state are plain fields, the callbacks are methods.
- `setInterval`/`clearInterval`, timer ids and effect cleanup: timing and scheduling are replaced by an explicit `Tick` that the caller invokes once per second.
- Stale closures: the source's callbacks read the phase of the last render, and the methods read the current phase. These agree whenever a render happens between calls.
- The effect's completion check on renders that do not follow a tick: under `Valid()` a running countdown always has at least one second left, so that check cannot fire there. The model runs it only inside `Tick`.
- `Hook.Countdown.Tick`: the source's render with 0 seconds while RUNNING is not modelled. In the source, the interval's TICK (src/hooks/useCountdown.ts:21) is followed by a render that shows that state (lines 95 and 103). Only after that render does the effect send COMPLETE (lines 25-27). The model runs both as one step. So the right-to-left half of `Valid()`'s `state == Completed <==> seconds == 0` holds only between model steps, not for that intermediate render.
- Immer drafts and structural sharing: the reducer updates the record's fields directly.
- IEEE-754 details of `number`: finite values are exact reals, so float rounding is not modelled.
- `Types.Action`: its duration is an integer, not any `number`. The controller only ever sends validated integers.
- The reducer's `default` branch for an unknown action type: the action datatype is closed, as the source's type is, so no unknown action can be built.
- `Time.GetDays`, `Time.GetHours`, `Time.GetMinutes`, `Time.GetSeconds`: defined on non-negative totals only, because JavaScript's `%` on negative totals is not modelled. The controller only shows non-negative counts (`Valid()`).
- Build and test configuration (`rollup.config.js`, `vitest.config.ts`) and the test harnesses (`renderHook`, `act`, fake timers): the tests serve only as evidence for properties and scenarios.
