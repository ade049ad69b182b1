/** The spin controller of app.js: the click handler (lines 133-188) with its
    `animate` and `bounceFrame` frame callbacks, over the module-level
    `angle` and `spinning` (lines 21-22). Each callback that the browser would
    run on an animation frame is a step method here, and every `Math.random()`
    draw, the frame timestamps and `performance.now()` are parameters. */
module Spin {
  import opened JsNumber
  import opened Geometry
  import opened Easing

  datatype Option<T> = None | Some(value: T)

  /** `minSpins`: every spin turns the wheel at least five times. */
  const MinSpins: real := 5.0

  /** `extra`: a random offset of up to one turn, drawn first. */
  function ExtraOffset(draw: real): (r: real)
    ensures 0.0 <= draw < 1.0 ==> 0.0 <= r < FullTurn
  {
    draw * 2.0 * Pi
  }

  /** `targetAngle`: the start plus five to eight turns plus the extra offset.
      With draws in [0, 1) it lies at least five and less than nine turns
      ahead. */
  function TargetAngle(start: real, extraDraw: real, spinsDraw: real): (target: real)
    ensures 0.0 <= extraDraw < 1.0 && 0.0 <= spinsDraw < 1.0 ==>
      start + MinSpins * FullTurn <= target < start + (MinSpins + 4.0) * FullTurn
  {
    start + (MinSpins + spinsDraw * 3.0) * Pi * 2.0 + ExtraOffset(extraDraw)
  }

  /** `duration`: between 4.5 and 5.7 seconds. */
  function Duration(draw: real): (d: real)
    ensures 0.0 <= draw < 1.0 ==> 4500.0 <= d < 5700.0
  {
    4500.0 + draw * 1200.0
  }

  /** `overshoot`: a bounce of 0.02 to 0.08 radians. */
  function Overshoot(draw: real): (o: real)
    ensures 0.0 <= draw < 1.0 ==> 0.02 <= o < 0.08
  {
    draw * 0.06 + 0.02
  }

  /** `if(!startTime) startTime = now`: JavaScript treats both `null` and a
      timestamp of 0 as unset, so a start time of 0 is replaced by the next
      frame's timestamp. */
  function LatchStart(startTime: Option<real>, now: real): (t: real)
    ensures startTime.Some? && startTime.value != 0.0 ==> t == startTime.value
    ensures startTime == None || startTime == Some(0.0) ==> t == now
  {
    match startTime
    case None => now
    case Some(s) => if s == 0.0 then now else s
  }

  /** A first frame stamped 0 does not fix the start: the next frame's
      timestamp becomes the start time, whereas any other first timestamp
      stays. */
  lemma ZeroTimestampRelatches(first: real, next: real)
    ensures LatchStart(Some(LatchStart(None, first)), next) == if first == 0.0 then next else first
  {
  }

  /** The phases of a spin; the Spinning and Settling phases carry the
      variables the handler's closures capture. */
  datatype Phase =
    | Idle
    | Spinning(startAngle: real, targetAngle: real, duration: real, startTime: Option<real>)
    | Settling(bounceStart: real, overshoot: real, base: real)

  /** What the draws of the click guarantee about the current phase. */
  ghost predicate PhaseValid(ph: Phase) {
    match ph
    case Idle => true
    case Spinning(start, target, duration, _) =>
      4500.0 <= duration < 5700.0 && start + MinSpins * FullTurn <= target
    case Settling(_, overshoot, _) => 0.02 <= overshoot < 0.08
  }

  /** The wheel's mutable state: the rotation that drawWheel paints, the
      `spinning` flag that gates clicks, and the pending phase. */
  class Wheel {
    var angle: real
    var spinning: bool
    var phase: Phase

    /** `spinning` is set exactly while a spin or its bounce is under way. */
    ghost predicate Valid()
      reads this
    {
      spinning == !phase.Idle? && PhaseValid(phase)
    }

    /** The page loads with the wheel at angle 0 and idle. */
    constructor ()
      ensures Valid()
      ensures angle == 0.0 && !spinning && phase == Idle
    {
      angle := 0.0;
      spinning := false;
      phase := Idle;
    }

    /** The click handler. While a spin is under way it does nothing;
        otherwise it starts a spin from the current angle toward a target
        at least five turns ahead, the first frame still to come. */
    method Click(extraDraw: real, spinsDraw: real, durationDraw: real)
      requires Valid()
      requires 0.0 <= extraDraw < 1.0 && 0.0 <= spinsDraw < 1.0 && 0.0 <= durationDraw < 1.0
      modifies this
      ensures Valid()
      ensures old(spinning) ==> unchanged(this)
      ensures !old(spinning) ==>
        spinning && angle == old(angle) &&
        phase == Spinning(old(angle), TargetAngle(old(angle), extraDraw, spinsDraw), Duration(durationDraw), None)
    {
      if spinning {
        return;
      }
      spinning := true;
      var startAngle := angle;
      var targetAngle := TargetAngle(startAngle, extraDraw, spinsDraw);
      var duration := Duration(durationDraw);
      phase := Spinning(startAngle, targetAngle, duration, None);
    }

    /** One `animate` frame at timestamp `now`. It latches the start time,
        eases the angle from the start toward the target, and once the
        duration is up lands exactly on the target and hands over to the
        bounce, begun at `clock` (`performance.now()`). */
    method AnimateStep(now: real, clock: real, overshootDraw: real)
      requires Valid() && phase.Spinning?
      requires 0.0 <= overshootDraw < 1.0
      modifies this
      ensures Valid() && spinning
      ensures
        var t0 := LatchStart(old(phase.startTime), now);
        var p := Progress(now - t0, old(phase.duration));
        angle == Interpolate(old(phase.startAngle), old(phase.targetAngle), EaseOutCubic(p)) &&
        (p < 1.0 ==> phase == old(phase).(startTime := Some(t0))) &&
        (p == 1.0 ==> phase == Settling(clock, Overshoot(overshootDraw), angle))
      ensures now == LatchStart(old(phase.startTime), now) ==> angle == old(phase.startAngle)
      ensures now - LatchStart(old(phase.startTime), now) >= old(phase.duration) ==>
        angle == old(phase.targetAngle) && phase.Settling?
      ensures LatchStart(old(phase.startTime), now) <= now ==>
        old(phase.startAngle) <= angle <= old(phase.targetAngle)
    {
      var startTime := LatchStart(phase.startTime, now);
      var elapsed := now - startTime;
      var progress := Progress(elapsed, phase.duration);
      var eased := EaseOutCubic(progress);
      angle := Interpolate(phase.startAngle, phase.targetAngle, eased);
      if progress < 1.0 {
        phase := phase.(startTime := Some(startTime));
      } else {
        var overshoot := Overshoot(overshootDraw);
        phase := Settling(clock, overshoot, angle);
      }
    }

    /** One `bounceFrame` at timestamp `t`. It adds the decaying bounce to
        the settled angle; when the bounce is over the angle is back on
        the settled angle, the wheel is idle again and the category under
        the pointer is announced (`showResult`). */
    method BounceStep(t: real, sin: real -> real) returns (shown: Option<Category>)
      requires Valid() && phase.Settling?
      modifies this
      ensures Valid()
      ensures
        var p := Progress(t - old(phase.bounceStart), BounceDuration);
        angle == old(phase.base) + BounceOffset(sin, p, old(phase.overshoot)) &&
        (p < 1.0 ==> spinning && phase == old(phase) && shown == None) &&
        (p == 1.0 ==> !spinning && phase == Idle && shown == Some(Resolve(angle)))
      ensures !spinning <==> t - old(phase.bounceStart) >= BounceDuration
      ensures !spinning ==> angle == old(phase.base)
      ensures SineLike(sin) && old(phase.bounceStart) <= t ==>
        old(phase.base) <= angle <= old(phase.base) + old(phase.overshoot)
    {
      var p := Progress(t - phase.bounceStart, BounceDuration);
      if SineLike(sin) && phase.bounceStart <= t {
        BounceOffsetBounds(sin, p, phase.overshoot);
      }
      var bounce := BounceOffset(sin, p, phase.overshoot);
      angle := phase.base + bounce;
      if p < 1.0 {
        shown := None;
      } else {
        spinning := false;
        phase := Idle;
        shown := Some(Resolve(angle));
      }
    }
  }

  /** The target lies a whole number of sectors' worth of turns ahead:
      MinSpins, plus three times the spins draw, plus the extra draw, turns. */
  lemma TargetInTurns(start: real, extraDraw: real, spinsDraw: real)
    ensures TargetAngle(start, extraDraw, spinsDraw)
         == start + Arc * ((N as real) * (MinSpins + 3.0 * spinsDraw + extraDraw))
  {
  }

  /** The category a spin lands on is fixed by where it started and by the
      two draws of the click: the pointer moves back by N sectors per turn. */
  lemma SpinOutcome(start: real, extraDraw: real, spinsDraw: real)
    ensures ResolveIndex(TargetAngle(start, extraDraw, spinsDraw))
         == Floor(Position(start) - (N as real) * (MinSpins + 3.0 * spinsDraw + extraDraw)) % N
  {
    TargetInTurns(start, extraDraw, spinsDraw);
    ResolveAfterTurn(start, (N as real) * (MinSpins + 3.0 * spinsDraw + extraDraw));
  }

  /** From rest, a spin of exactly five turns comes back to History, the
      category it started on. */
  lemma FiveTurnsFromRest()
    ensures ResolveIndex(TargetAngle(0.0, 0.0, 0.0)) == ResolveIndex(0.0) == 3
    ensures Categories[3].name == "History"
  {
    RestingCategory();
    SpinOutcome(0.0, 0.0, 0.0);
    assert (N as real) * (MinSpins + 3.0 * 0.0 + 0.0) == 25.0;
    assert Floor(3.75 - 25.0) == -22;
    assert -22 % N == 3;
  }

  /** From any start, a spin of exactly five turns (both draws 0) comes
      back to the sector it started on. */
  lemma FiveTurnsReturn(start: real)
    ensures ResolveIndex(TargetAngle(start, 0.0, 0.0)) == ResolveIndex(start)
  {
    assert TargetAngle(start, 0.0, 0.0) == start + FullTurn * 5 as real;
    ResolvePeriodic(start, 5);
  }

  /** From rest, five turns and one and a half sectors more lands on
      Science, two sectors before History: one whole sector back, and one
      more because the extra half sector passes the pointer's three
      quarters of a sector into History. */
  lemma FiveTurnsAndAHalfSectorsFromRest()
    ensures ResolveIndex(TargetAngle(0.0, 0.3, 0.0)) == 2
    ensures Categories[2].name == "Science"
  {
    RestingCategory();
    SpinOutcome(0.0, 0.3, 0.0);
    assert (N as real) * (MinSpins + 3.0 * 0.0 + 0.3) == 26.5;
    assert Floor(3.75 - 26.5) == -23;
    assert -23 % N == 2;
  }

  /** A whole spin from a freshly loaded page: one click, a first frame, a
      frame after the duration is up, and a bounce frame after the bounce
      is over. The category announced is the one under the pointer at the
      target angle. */
  method SpinFromRest(extraDraw: real, spinsDraw: real, durationDraw: real, overshootDraw: real,
                      firstFrame: real, sin: real -> real)
    returns (shown: Option<Category>)
    requires 0.0 <= extraDraw < 1.0 && 0.0 <= spinsDraw < 1.0 && 0.0 <= durationDraw < 1.0
    requires 0.0 <= overshootDraw < 1.0
    requires firstFrame != 0.0
    ensures shown == Some(Resolve(TargetAngle(0.0, extraDraw, spinsDraw)))
  {
    var wheel := new Wheel();
    wheel.Click(extraDraw, spinsDraw, durationDraw);
    wheel.AnimateStep(firstFrame, firstFrame, overshootDraw);
    var last := firstFrame + 6000.0;
    wheel.AnimateStep(last, last, overshootDraw);
    shown := wheel.BounceStep(last + BounceDuration, sin);
  }
}
