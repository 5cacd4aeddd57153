// A single axis under a constant-rate motion: where it is after every step and
// when it is done.
module AxisMotion {
  import opened Prelude
  import opened ClockArithmetic
  import opened Controller

  /** The axis after so many steps with no new command. */
  function Glide(a: Axis, steps: nat): Axis {
    if steps == 0 then a else MoveAxis(Glide(a, steps - 1))
  }

  function Moving(a: Axis, distance: int, rate: u64): Axis {
    a.(motion := Some(MoveMotion(distance, rate)))
  }

  function Homing(a: Axis, rate: u64): Axis {
    a.(motion := Some(HomeMotion(rate)))
  }

  /** Micrometres a step, as the source computes them from a rate a second. */
  function Speed(rate: u64): int {
    TruncDiv(AsI64(rate), 1000)
  }

  /** The cast to `i64` turns the largest rates backward, save the last few that truncate to a standstill. */
  predicate Forward(rate: u64) {
    rate < I64_LIMIT || rate > U64_LIMIT - 1000
  }

  lemma SpeedMeaning(rate: u64)
    ensures Forward(rate) <==> Speed(rate) >= 0
    ensures rate < I64_LIMIT ==> Speed(rate) == rate / 1000
    ensures rate >= I64_LIMIT ==> Speed(rate) == -((U64_LIMIT - rate) / 1000)
    ensures !Forward(rate) ==> Speed(rate) <= -1
    ensures HomeMotion(rate).perMs == -Speed(rate)
  {
  }

  /** `length` in the direction of `distance`. */
  function Toward(distance: int, length: int): int {
    if distance >= 0 then length else -length
  }

  /** The axis once `covered` of the distance is behind it. */
  function Covered(a: Axis, distance: int, speed: int, covered: int): Axis {
    if covered >= Abs(distance) then a.(position := a.position + distance, motion := None)
    else a.(position := a.position + Toward(distance, covered),
            motion := Some(Motion(Toward(distance, speed), distance - Toward(distance, covered), false)))
  }

  lemma MoveSpeed(distance: int, rate: u64)
    ensures MoveMotion(distance, rate).perMs == if distance == 0 then 0 else Toward(distance, Speed(rate))
  {
    var r: int := AsI64(rate);
    if distance > 0 {
      assert Signum(distance) * r == r;
    } else if distance < 0 {
      assert Signum(distance) * r == -r;
    }
  }

  lemma MoveStarts(a: Axis, distance: int, rate: u64)
    requires Speed(rate) >= 0
    ensures MoveAxis(Moving(a, distance, rate)) == Covered(a, distance, Speed(rate), Speed(rate))
  {
    hide Speed, MoveMotion;
    MoveSpeed(distance, rate);
    MoveMotionParts(distance, rate);
  }

  lemma MoveMotionParts(distance: int, rate: u64)
    ensures MoveMotion(distance, rate).remaining == distance && !MoveMotion(distance, rate).homing
  {
  }

  lemma MoveContinues(a: Axis, distance: int, speed: int, covered: int)
    requires speed >= 0 && covered >= 0
    ensures MoveAxis(Covered(a, distance, speed, covered)) == Covered(a, distance, speed, covered + speed)
  {
  }

  /** Where a move has its axis after every step. */
  lemma {:induction false} MoveAfter(a: Axis, distance: int, rate: u64, steps: nat)
    requires Speed(rate) >= 0 && steps >= 1
    ensures Glide(Moving(a, distance, rate), steps) == Covered(a, distance, Speed(rate), steps * Speed(rate))
  {
    hide Covered, MoveAxis, Moving, Speed;
    var v := Speed(rate);
    if steps == 1 {
      assert Glide(Moving(a, distance, rate), 1) == MoveAxis(Glide(Moving(a, distance, rate), 0));
      MoveStarts(a, distance, rate);
    } else {
      MoveAfter(a, distance, rate, steps - 1);
      MoveContinues(a, distance, v, (steps - 1) * v);
      assert steps * v == (steps - 1) * v + v;
    }
  }

  function Remaining(a: Axis): int {
    if a.motion.Some? then a.motion.value.remaining else 0
  }

  predicate OnTheWay(from: Axis, distance: int, now: Axis) {
    && now.position + Remaining(now) == from.position + distance
    && (from.position <= now.position <= from.position + distance
        || from.position + distance <= now.position <= from.position)
  }

  /** A move is done after exactly the steps its length and rate need, or never:
      at no whole unit a step only an empty move ends. Until then each step takes the
      axis its speed further, what is behind and what remains add up, and the axis
      never leaves its way. */
  lemma MoveArrives(a: Axis, distance: int, rate: u64, steps: nat)
    requires Forward(rate)
    ensures var now := Glide(Moving(a, distance, rate), steps);
      && OnTheWay(a, distance, now)
      && Abs(now.position - a.position) == Min(Abs(distance), steps * Speed(rate))
      && (Speed(rate) >= 1 ==> (now.motion.None? <==> steps >= Max(1, Ceil(Abs(distance), Speed(rate)))))
      && (Speed(rate) == 0 ==> (now.motion.None? <==> steps >= 1 && distance == 0))
  {
    hide Glide, Speed, MoveMotion, Ceil;
    SpeedMeaning(rate);
    MoveMotionParts(distance, rate);
    var v := Speed(rate);
    if steps == 0 {
      GlideNone(Moving(a, distance, rate));
    } else {
      MoveAfter(a, distance, rate, steps);
      CoveredMeaning(a, distance, v, steps * v);
      if v >= 1 {
        CeilReached(Abs(distance), v, steps);
      }
    }
  }

  predicate FirstAxis(axes: seq<Axis>, k: nat)
    requires k < |axes|
  {
    forall j :: 0 <= j < k ==> axes[j].name != axes[k].name
  }

  /** A starting move or homing sets the first axis of its name on its way from where
      it is, whatever it was doing, and touches no other axis. */
  lemma StartMovesExactly(s: ControllerState, k: nat)
    requires s.queue != [] && k < |s.axes|
    ensures var c, a, next := s.queue[0].command, s.axes[k], StartFront(s).axes;
      && |next| == |s.axes|
      && next[k] == if c.Move? && c.axis == a.name && FirstAxis(s.axes, k) then Moving(a, c.distanceUm, c.rateUmS)
                    else if c.Home? && c.axis == a.name && FirstAxis(s.axes, k) then Homing(a, c.rateUmS)
                    else a
  {
    hide FindAxis, FindHeater, HomeMotion, MoveMotion;
  }

  /** Every move at this rate keeps to its way. */
  ghost predicate Dependable(rate: u64) {
    forall a: Axis, distance: i64, steps: nat :: OnTheWay(a, distance, Glide(Moving(a, distance, rate), steps))
  }

  /** A move keeps to its way exactly when the cast leaves its rate forward. */
  lemma DependableExactly(rate: u64)
    ensures Dependable(rate) <==> Forward(rate)
  {
    hide Glide, Moving, OnTheWay, Speed;
    if Forward(rate) {
      forall a: Axis, distance: i64, steps: nat
        ensures OnTheWay(a, distance, Glide(Moving(a, distance, rate), steps))
      {
        MoveArrives(a, distance, rate, steps);
      }
    } else {
      RunsAway(rate);
    }
  }

  /** The first step of a long move goes the wrong way. */
  lemma RunsAway(rate: u64)
    requires !Forward(rate)
    ensures !Dependable(rate)
  {
    var a := Axis([], 0, None);
    SpeedMeaning(rate);
    var distance := 1 - Speed(rate);
    MoveSpeed(distance, rate);
    var start := Moving(a, distance, rate);
    assert Glide(start, 1) == MoveAxis(Glide(start, 0));
    assert Glide(start, 1).position == Speed(rate);
    assert InI64(distance);
    var d: i64 := distance;
    assert !OnTheWay(a, d, Glide(Moving(a, d, rate), 1));
  }

  lemma GlideNone(a: Axis)
    ensures Glide(a, 0) == a
  {
  }

  lemma CoveredMeaning(a: Axis, distance: int, speed: int, covered: int)
    requires covered >= 0
    ensures var now := Covered(a, distance, speed, covered);
      && now.position + Remaining(now) == a.position + distance
      && (a.position <= now.position <= a.position + distance || a.position + distance <= now.position <= a.position)
      && (now.motion.None? <==> covered >= Abs(distance))
      && Abs(now.position - a.position) == Min(Abs(distance), covered)
  {
  }

  lemma CeilReached(n: int, d: int, k: int)
    requires d > 0
    ensures k >= Ceil(n, d) <==> k * d >= n
  {
    hide Ceil;
    DivBounds(n, d);
    MulLe(Ceil(n, d), k, d);
    MulLe(k, Ceil(n, d) - 1, d);
    assert (Ceil(n, d) - 1) * d == Ceil(n, d) * d - d;
  }

  // ----- homing -----------------------------------------------------------------------------

  function HomedBy(a: Axis, speed: int, covered: int): Axis {
    if covered >= a.position then a.(position := 0, motion := None)
    else a.(position := a.position - covered, motion := Some(Motion(-speed, 0, true)))
  }

  lemma HomeStarts(a: Axis, rate: u64)
    requires Speed(rate) >= 0
    ensures MoveAxis(Homing(a, rate)) == HomedBy(a, Speed(rate), Speed(rate))
  {
  }

  lemma HomeContinues(a: Axis, speed: int, covered: int)
    requires speed >= 0
    ensures MoveAxis(HomedBy(a, speed, covered)) == HomedBy(a, speed, covered + speed)
  {
  }

  lemma {:induction false} HomeAfter(a: Axis, rate: u64, steps: nat)
    requires Speed(rate) >= 0 && steps >= 1
    ensures Glide(Homing(a, rate), steps) == HomedBy(a, Speed(rate), steps * Speed(rate))
  {
    hide HomedBy, MoveAxis, Homing, Speed;
    var v := Speed(rate);
    if steps == 1 {
      assert Glide(Homing(a, rate), 1) == MoveAxis(Glide(Homing(a, rate), 0));
      HomeStarts(a, rate);
    } else {
      HomeAfter(a, rate, steps - 1);
      HomeContinues(a, v, (steps - 1) * v);
      assert steps * v == (steps - 1) * v + v;
    }
  }

  /** An axis homing backward from past the endstop only moves further away; at
      most the first step can end it. */
  lemma {:induction false} HomeRecedes(a: Axis, rate: u64, steps: nat)
    requires Speed(rate) <= 0 && steps >= 1
    ensures Glide(Homing(a, rate), steps) ==
            if a.position <= Speed(rate) then a.(position := 0, motion := None)
            else a.(position := a.position - steps * Speed(rate), motion := Some(HomeMotion(rate)))
  {
    hide MoveAxis, Homing, Speed, HomeMotion;
    var v := Speed(rate);
    if steps == 1 {
      assert Glide(Homing(a, rate), 1) == MoveAxis(Glide(Homing(a, rate), 0));
      HomeStep(a, rate);
    } else {
      HomeRecedes(a, rate, steps - 1);
      assert steps * v == (steps - 1) * v + v;
      var before := a.position - (steps - 1) * v;
      assert (steps - 1) * v <= 0;
      if a.position > v {
        HomeStep(a.(position := before), rate);
        StillHoming(a, before, rate);
      } else {
        assert MoveAxis(a.(position := 0, motion := None)) == a.(position := 0, motion := None) by { RestsAtHome(a); }
      }
    }
  }

  lemma HomeStep(a: Axis, rate: u64)
    ensures MoveAxis(Homing(a, rate)) ==
            if a.position <= Speed(rate) then a.(position := 0, motion := None)
            else a.(position := a.position - Speed(rate), motion := Some(HomeMotion(rate)))
  {
  }

  lemma StillHoming(a: Axis, at: int, rate: u64)
    ensures a.(position := at, motion := Some(HomeMotion(rate))) == Homing(a.(position := at), rate)
  {
  }

  lemma RestsAtHome(a: Axis)
    ensures MoveAxis(a.(position := 0, motion := None)) == a.(position := 0, motion := None)
  {
  }

  /** Forward homing ends on the endstop, at zero, after exactly the steps the way
      takes. At no whole unit a step, or backward, it ends at the first step, from
      where that step already reaches the endstop, or never. */
  lemma HomeArrives(a: Axis, rate: u64, steps: nat)
    ensures var now := Glide(Homing(a, rate), steps);
      && (Speed(rate) >= 1 ==> (now.motion.None? <==> steps >= Max(1, Ceil(a.position, Speed(rate)))))
      && (Speed(rate) <= 0 ==> (now.motion.None? <==> steps >= 1 && a.position <= Speed(rate)))
      && (now.motion.None? ==> now.position == 0)
      && (now.motion.Some? ==> now.position == a.position - steps * Speed(rate))
      && (now.motion.Some? ==> now.position > 0 || Speed(rate) <= 0 || steps == 0)
  {
    hide Glide, Speed, Ceil, HomeMotion;
    var v := Speed(rate);
    if steps == 0 {
      GlideNone(Homing(a, rate));
    } else if v >= 1 {
      HomeAfter(a, rate, steps);
      CeilReached(a.position, v, steps);
    } else {
      HomeRecedes(a, rate, steps);
    }
  }
}
