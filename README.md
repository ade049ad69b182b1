# Trivia-Roulette spinning wheel, modelled in Dafny

Trivia-Roulette is a browser widget. It draws a wheel of five trivia
categories (Sports, Geography, Science, History, Art). A click on the spin
button sets off a randomised spin of five to nine turns that lasts 4.5 to
5.7 seconds and slows with an ease-out cubic curve. A short damped bounce
follows. When the bounce ends, the page announces the category under the
pointer at the top of the wheel.

This project models the logic of `app.js`:

- `JsNumber` (`js_number.dfy`) holds the JavaScript number operations the
  wheel uses, over exact reals: `Math.floor`, `Math.min`, the truncating
  `%`, and `Math.PI`. It also holds the floored remainder that the
  `(x % m + m) % m` idiom computes.
- `Geometry` (`geometry.dfy`) holds the categories, `arc`, and the index
  computation of `showResult`. It also proves that this index is the sector
  that `drawWheel` paints under the pointer.
- `Easing` (`easing.dfy`) holds `easeOutCubic`, the progress and
  interpolation of `animate`, and the bounce of `bounceFrame`.
- `Spin` (`spin.dfy`) holds the click handler's random draws, the
  start-time latch, and the class `Wheel`. `Wheel` has the module-level
  `angle` and `spinning` and the pending phase. Its step methods are `Click`,
  `AnimateStep` (one `animate` frame) and `BounceStep` (one `bounceFrame`).

Modelling decisions:

- Numbers are exact reals, not IEEE doubles.
- `Math.PI` is the exact value of the double it denotes,
  884279719003555 / 2^48. It is not an abstract constant. With a fixed value
  every sector boundary is a fixed number, and all the geometry is linear
  arithmetic.
- The category count is the five categories the file defines.
- The code's `%` truncates toward zero and keeps the sign of the dividend.
  It is modelled that way (`JsNumber.Rem`, `JsNumber.IntRem`). A lemma proves
  that the source's double reduction gives the floored remainder.
- Each `Math.random()` draw is a parameter in [0, 1), taken in the order
  the code makes them.
- Frame timestamps and `performance.now()` are parameters too.
- `Math.sin` is a function-valued parameter. Only the bounce lemmas assume
  anything about it: that it is 0 at 0 and lies in [0, 1] on [0, π].

Between the spin and the bounce, the source keeps its per-spin state in the
closures of `animate` and `bounceFrame`. Here that state is the `Phase` value
held by the wheel: `Idle`, `Spinning` or `Settling`.

Every spin makes at least five full turns (`minSpins = 5`), plus up to
three more (fractional) and up to one more turn of offset. The category
list is a constant of five entries, so there is no empty-list path.

The code has one quirk, `if(!startTime)`. It treats a first frame timestamp
of 0 as unset, so the next frame's timestamp becomes the start time. The
model keeps this quirk (`Spin.LatchStart`).

## Model

| member | source | states |
|---|---|---|
| `JsNumber.Floor` | app.js:194 | `Math.floor`: the result is the greatest integer not above its argument |
| `JsNumber.Min` | app.js:152 | `Math.min(a, b)` is one of its arguments and is no greater than either |
| `JsNumber.Rem` | app.js:193 | JavaScript `%` on numbers: the result has the dividend's sign, is smaller than the divisor in magnitude, and differs from the dividend by a whole multiple of the divisor |
| `JsNumber.IntRem` | app.js:195 | JavaScript `%` on integers: it agrees with the Euclidean remainder on non-negative dividends, is non-positive on negative ones, and differs from the dividend by a multiple of the divisor |
| `JsNumber.FloorMod` | app.js:193 | the floored remainder lies in [0, m) and differs from x by a whole multiple of m |
| `JsNumber.RemIdiomIsFloorMod` | app.js:193 | `(x % m + m) % m` equals the floored remainder of x by m, for every x |
| `JsNumber.FloorModShift` | app.js:192-193 | adding whole multiples of m does not change the floored remainder |
| `JsNumber.FloorModUnique` | app.js:193 | a value in [0, m) congruent to x modulo m is the floored remainder of x |
| `Geometry.CategoryCount` | app.js:18 | the category count and the sector width `arc = 2π / categories.length` are those of the five-entry list |
| `Geometry.Adjusted` | app.js:192-193 | `adjusted` always lies in [0, 2π) and is the floored remainder of `-π/2 - angle` by a full turn |
| `Geometry.Position` | app.js:193-194 | `adjusted / arc` lies in [0, 5) and is the floored remainder, modulo 5, of the pointer's offset from the wheel's origin counted in sectors |
| `Geometry.ResolveIndex` | app.js:193-195 | the index always lies in [0, categories.length); the position lies in its half-open span [index, index + 1) |
| `Geometry.Resolve` | app.js:197 | `categories[index]` is always defined: the announced category is one of the five |
| `Geometry.ReduceInRange` | app.js:195 | the second reduction `(index % n + n) % n` leaves an index already in [0, n) unchanged |
| `Geometry.ResolveIndexUnique` | app.js:194 | the half-open spans do not overlap: a sector whose span holds the position is the resolved one |
| `Geometry.AdjustedPeriodic` | app.js:192-193 | `adjusted` is unchanged when the angle moves by any whole number of turns |
| `Geometry.ResolvePeriodic` | app.js:192-195 | angles a whole number of turns apart resolve to the same index |
| `Geometry.PositionAfterTurn` | app.js:192-194 | turning the wheel forward by t sectors moves the pointer's position back by t, modulo 5 |
| `Geometry.FloorOfReduced` | app.js:194-195 | flooring a position reduced modulo 5 equals the floor of the position, reduced modulo 5 |
| `Geometry.ResolveAfterTurn` | app.js:192-195 | after turning forward by t sectors, the index is floor(old position - t) mod 5 |
| `Geometry.CoversInSectors` | app.js:56-60 | drawWheel's sector i (from angle + i·arc to angle + (i+1)·arc) covers the pointer k turns along exactly when the pointer's position in sectors, k turns back, lies in [i, i+1) |
| `Geometry.ResolveIsUnderPointer` | app.js:191-197 | for every angle and every i in [0, 5): sector i is the one drawWheel paints under the pointer if and only if showResult resolves to i |
| `Geometry.RestingCategory` | app.js:191-197 | at the initial angle 0 the pointer sits 3.75 sectors round, over History |
| `Easing.EaseOutCubic` | app.js:130 | `easeOutCubic` maps [0, 1] into [0, 1] |
| `Easing.EaseOutCubicEnds` | app.js:130 | `easeOutCubic(0) = 0` and `easeOutCubic(1) = 1` |
| `Easing.EaseOutCubicMonotone` | app.js:130 | `easeOutCubic` is non-decreasing |
| `Easing.CubeMonotone` | app.js:130 | `Math.pow(x, 3)` preserves order |
| `Easing.Progress` | app.js:151-152 | `progress` never exceeds 1; it equals 1 exactly when the elapsed time reaches the duration; it is 0 at the first instant and non-negative afterwards |
| `Easing.Interpolate` | app.js:155 | the angle equals `startAngle` at eased 0 and `targetAngle` at eased 1, and lies between them for eased in [0, 1] |
| `Easing.BounceOffset` | app.js:174 | the bounce is exactly 0 once p reaches 1 |
| `Easing.BounceOffsetBounds` | app.js:172-175 | the bounce is 0 at p = 0 and at p = 1, and lies in [0, overshoot] for p in [0, 1] |
| `Spin.ExtraOffset` | app.js:143 | `extra` lies in [0, 2π) |
| `Spin.TargetAngle` | app.js:140-144 | `targetAngle` lies at least 5·2π and less than 9·2π beyond `startAngle` |
| `Spin.Duration` | app.js:146 | `duration` lies in [4500, 5700) |
| `Spin.Overshoot` | app.js:169 | `overshoot` lies in [0.02, 0.08) |
| `Spin.LatchStart` | app.js:148-150 | a start time already set to a non-zero value is kept; null or 0 is replaced by the current frame's timestamp |
| `Spin.ZeroTimestampRelatches` | app.js:150 | a first frame stamped 0 does not fix the start time: the second frame's timestamp does; any other first timestamp stays |
| `Spin.TargetInTurns` | app.js:144 | the target is the start plus 5·(5 + 3·spinsDraw + extraDraw) sectors |
| `Spin.SpinOutcome` | app.js:140-144 | the category a spin lands on is floor(start position - 5·(5 + 3·spinsDraw + extraDraw)) mod 5 |
| `Spin.FiveTurnsReturn` | app.js:142-144 | from any start angle, a spin of exactly five turns (both draws 0) lands on the sector it started on |
| `Spin.FiveTurnsFromRest` | app.js:142-144 | from rest, a spin of exactly five turns lands on History, the category it started on |
| `Spin.FiveTurnsAndAHalfSectorsFromRest` | app.js:142-144 | from rest, five turns plus one and a half sectors lands on Science |
| `Spin.Wheel.constructor` | app.js:21-22 | the wheel starts idle at angle 0 with `spinning` false |
| `Spin.Wheel.Click` | app.js:133-148 | a click while `spinning` changes nothing. Otherwise it sets `spinning`, keeps the angle, and records start, target, duration and an unset start time |
| `Spin.Wheel.AnimateStep` | app.js:149-170 | the angle is the eased interpolation. At progress 0 it is `startAngle`; it stays between start and target. Once elapsed ≥ duration the angle is exactly `targetAngle` and the phase becomes the bounce, with base = target and no further animate frame. Before that the latched start time is kept |
| `Spin.Wheel.BounceStep` | app.js:171-183 | the angle is base plus the bounce, within [base, base + overshoot] once the bounce has begun. `spinning` becomes false exactly when p reaches 1; the angle is then exactly base and showResult announces the category resolved from it; before that nothing is announced |
| `Spin.SpinFromRest` | app.js:133-188 | a click on a freshly loaded page, a first frame stamped other than 0, a frame after the duration and a bounce frame after 360 ms announce the category resolved from the target angle |

## Left out

- Canvas drawing and layout (`resizeCanvas`, `drawWheel`, `drawArrow`, device-pixel-ratio scaling, the resize listener): pixel output only. The geometry of drawWheel's sectors is captured in `Geometry.CoversPointer`.
- Audio (`spinSound`, `stopSound` play, pause and loop): fire-and-forget browser output with no effect on the state.
- `confetti(...)`: a third-party library; not part of this model.
- `showCategoryPopup`, its DOM write and its 2.5 s `setTimeout` dismissal: DOM output and timers. `Spin.Wheel.BounceStep` returns the announced category instead.
- `requestAnimationFrame` and `performance.now()` scheduling: frames are explicit step calls whose timestamps are parameters. The model does not enforce the browser's ordering of frame timestamps.
- `Math.random` and `Math.sin`: parameters. `Spin.Wheel.BounceStep` places no condition on the sine it is given; `Easing.BounceOffsetBounds` assumes only that the sine is 0 at 0 and lies in [0, 1] on [0, π].
- IEEE double rounding, including rounding at sector boundaries: arithmetic is exact over the reals.
- JavaScript truthiness of `NaN` in `if(!startTime)`: timestamps are never `NaN`, so `Spin.LatchStart` treats only `null` and 0 as unset.
