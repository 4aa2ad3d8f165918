/** The pan and tilt tracker. Angles are real numbers. */
module Tracker {

  datatype Params = Params(
    panMin: real, panMax: real, panHome: real, tiltMin: real, tiltMax: real, tiltHome: real,
    deadzonePx: int, gainPan: real, gainTilt: real, maxStepDeg: real, panSign: real, tiltSign: real)

  /** What `std::clamp` demands of its bounds. */
  predicate Proper(p: Params) {
    p.panMin <= p.panMax && p.tiltMin <= p.tiltMax && 0.0 <= p.maxStepDeg
  }

  /** The detection result the tracker looks at. */
  datatype Snapshot = Snapshot(found: bool, centerX: int, centerY: int, frameW: int, frameH: int)

  datatype Angles = Angles(pan: real, tilt: real)

  function Clamp(x: real, lo: real, hi: real): (r: real)
    requires lo <= hi
    ensures lo <= r <= hi && (lo <= x <= hi ==> r == x)
  {
    if x < lo then lo else if hi < x then hi else x
  }

  function Abs(x: real): real { if x < 0.0 then -x else x }

  /** The proportional correction for an error in pixels. */
  function Correction(sign: real, gain: real, e: real): real { sign * gain * e }

  /** How far a coordinate is from the middle of the frame. */
  function ErrorOf(center: int, size: int): real { center as real - size as real / 2.0 }

  /** One axis of the proportional step: nothing inside the deadzone, and never more than the step limit. */
  function AxisStep(center: int, size: int, sign: real, gain: real, p: Params): (d: real)
    requires Proper(p)
    ensures Abs(d) <= p.maxStepDeg
  {
    var e := ErrorOf(center, size);
    Clamp(if Abs(e) > p.deadzonePx as real then Correction(sign, gain, e) else 0.0, -p.maxStepDeg, p.maxStepDeg)
  }

  predicate Usable(s: Snapshot) { s.found && s.frameW > 0 && s.frameH > 0 }

  function AfterAuto(a: Angles, s: Snapshot, p: Params): Angles
    requires Proper(p)
  {
    if !Usable(s) then a
    else Angles(Clamp(a.pan + AxisStep(s.centerX, s.frameW, p.panSign, p.gainPan, p), p.panMin, p.panMax),
                Clamp(a.tilt + AxisStep(s.centerY, s.frameH, p.tiltSign, p.gainTilt, p), p.tiltMin, p.tiltMax))
  }

  function AfterNudge(a: Angles, dPan: real, dTilt: real, p: Params): Angles
    requires Proper(p)
  {
    Angles(Clamp(a.pan + dPan, p.panMin, p.panMax), Clamp(a.tilt + dTilt, p.tiltMin, p.tiltMax))
  }

  function AfterSet(pan: real, tilt: real, p: Params): Angles
    requires Proper(p)
  {
    Angles(Clamp(pan, p.panMin, p.panMax), Clamp(tilt, p.tiltMin, p.tiltMax))
  }

  class PanTiltTracker {
    const p: Params
    var pan: real
    var tilt: real

    constructor (p: Params)
      ensures this.p == p && At() == Angles(p.panHome, p.tiltHome)
    {
      this.p, pan, tilt := p, p.panHome, p.tiltHome;
    }

    function At(): Angles
      reads this
    {
      Angles(pan, tilt)
    }

    /** One proportional step toward the face; holds still without one. */
    method UpdateAuto(s: Snapshot)
      requires Proper(p)
      modifies this`pan, this`tilt
      ensures At() == AfterAuto(old(At()), s, p)
    {
      hide Correction, ErrorOf, Abs;
      if !s.found || s.frameW <= 0 || s.frameH <= 0 { return; }
      var ex := ErrorOf(s.centerX, s.frameW);
      var ey := ErrorOf(s.centerY, s.frameH);
      var dPan, dTilt := 0.0, 0.0;
      if Abs(ex) > p.deadzonePx as real { dPan := Correction(p.panSign, p.gainPan, ex); }
      if Abs(ey) > p.deadzonePx as real { dTilt := Correction(p.tiltSign, p.gainTilt, ey); }
      dPan := Clamp(dPan, -p.maxStepDeg, p.maxStepDeg);
      dTilt := Clamp(dTilt, -p.maxStepDeg, p.maxStepDeg);
      pan := Clamp(pan + dPan, p.panMin, p.panMax);
      tilt := Clamp(tilt + dTilt, p.tiltMin, p.tiltMax);
    }

    method Nudge(dPanDeg: real, dTiltDeg: real)
      requires Proper(p)
      modifies this`pan, this`tilt
      ensures At() == AfterNudge(old(At()), dPanDeg, dTiltDeg, p)
    {
      pan := Clamp(pan + dPanDeg, p.panMin, p.panMax);
      tilt := Clamp(tilt + dTiltDeg, p.tiltMin, p.tiltMax);
    }

    method SetAbs(panDeg: real, tiltDeg: real)
      requires Proper(p)
      modifies this`pan, this`tilt
      ensures At() == AfterSet(panDeg, tiltDeg, p)
    {
      pan := Clamp(panDeg, p.panMin, p.panMax);
      tilt := Clamp(tiltDeg, p.tiltMin, p.tiltMax);
    }
  }

  // ---- trajectories ---------------------------------------------------------------

  /** Everything the tracker can be told. */
  datatype Order = Auto(s: Snapshot) | Nudged(dPan: real, dTilt: real) | Set(pan: real, tilt: real)

  function Obey(a: Angles, o: Order, p: Params): Angles
    requires Proper(p)
  {
    match o
    case Auto(s) => AfterAuto(a, s, p)
    case Nudged(dPan, dTilt) => AfterNudge(a, dPan, dTilt, p)
    case Set(pan, tilt) => AfterSet(pan, tilt, p)
  }

  function ObeyAll(a: Angles, os: seq<Order>, p: Params): Angles
    requires Proper(p)
    decreases |os|
  {
    if os == [] then a else ObeyAll(Obey(a, os[0], p), os[1..], p)
  }

  predicate InRange(a: Angles, p: Params) {
    p.panMin <= a.pan <= p.panMax && p.tiltMin <= a.tilt <= p.tiltMax
  }

  /** A run that starts in range stays in range. */
  lemma {:induction false} StaysInRange(a: Angles, os: seq<Order>, p: Params)
    requires Proper(p) && InRange(a, p)
    ensures InRange(ObeyAll(a, os, p), p)
    decreases |os|
  {
    if os != [] { StaysInRange(Obey(a, os[0], p), os[1..], p); }
  }

  /** An automatic step from inside the range moves each axis by at most the step limit. */
  lemma AutoStepIsSmall(a: Angles, s: Snapshot, p: Params)
    requires Proper(p) && InRange(a, p)
    ensures var b := AfterAuto(a, s, p);
            Abs(b.pan - a.pan) <= p.maxStepDeg && Abs(b.tilt - a.tilt) <= p.maxStepDeg
  {
    if Usable(s) {
      var d := AxisStep(s.centerX, s.frameW, p.panSign, p.gainPan, p);
      var e := AxisStep(s.centerY, s.frameH, p.tiltSign, p.gainTilt, p);
      ClampMovesLess(a.pan, d, p.panMin, p.panMax);
      ClampMovesLess(a.tilt, e, p.tiltMin, p.tiltMax);
    }
  }

  lemma ClampMovesLess(x: real, d: real, lo: real, hi: real)
    requires lo <= x <= hi
    ensures Abs(Clamp(x + d, lo, hi) - x) <= Abs(d)
  {
  }

  function AutoTimes(a: Angles, s: Snapshot, n: nat, p: Params): Angles
    requires Proper(p)
  {
    if n == 0 then a else AfterAuto(AutoTimes(a, s, n - 1, p), s, p)
  }

  /** One jump of `n` times a step, clamped once. */
  function Jump(x: real, n: nat, d: real, lo: real, hi: real): real
    requires lo <= hi
  {
    Clamp(x + n as real * d, lo, hi)
  }

  /** Clamping at every step comes to the same as clamping once at the end. */
  lemma ClampOnce(x: real, n: nat, d: real, lo: real, hi: real)
    requires lo <= x <= hi
    ensures Jump(x, 0, d, lo, hi) == x
    ensures Clamp(Jump(x, n, d, lo, hi) + d, lo, hi) == Jump(x, n + 1, d, lo, hi)
  {
    var m := n as real * d;
    assert (n + 1) as real * d == m + d;
    ProductSign(n as real, d);
  }

  lemma ProductSign(n: real, d: real)
    requires n >= 0.0
    ensures d >= 0.0 ==> n * d >= 0.0
    ensures d <= 0.0 ==> n * d <= 0.0
  {
    assert n * d == -(n * -d);
    if d <= 0.0 { assert n * -d >= 0.0; }
  }

  /** The trajectory under an unchanging snapshot: after `n` steps each axis is where
      one jump of `n` times the single step would have put it, clamped once. */
  lemma {:induction false} Trajectory(a: Angles, s: Snapshot, n: nat, p: Params)
    requires Proper(p) && InRange(a, p) && Usable(s)
    ensures var d := AxisStep(s.centerX, s.frameW, p.panSign, p.gainPan, p);
            var e := AxisStep(s.centerY, s.frameH, p.tiltSign, p.gainTilt, p);
            AutoTimes(a, s, n, p) == Angles(Jump(a.pan, n, d, p.panMin, p.panMax), Jump(a.tilt, n, e, p.tiltMin, p.tiltMax))
  {
    hide AxisStep, Jump, Clamp;
    var d := AxisStep(s.centerX, s.frameW, p.panSign, p.gainPan, p);
    var e := AxisStep(s.centerY, s.frameH, p.tiltSign, p.gainTilt, p);
    if n == 0 {
      ClampOnce(a.pan, 0, d, p.panMin, p.panMax);
      ClampOnce(a.tilt, 0, e, p.tiltMin, p.tiltMax);
    } else {
      Trajectory(a, s, n - 1, p);
      ClampOnce(a.pan, n - 1, d, p.panMin, p.panMax);
      ClampOnce(a.tilt, n - 1, e, p.tiltMin, p.tiltMax);
    }
  }

  /** Enough steps toward a limit reach it. */
  lemma LimitReached(x: real, n: nat, d: real, lo: real, hi: real)
    requires lo <= x <= hi
    ensures d > 0.0 ==> (Jump(x, n, d, lo, hi) == hi <==> n as real * d >= hi - x)
    ensures d < 0.0 ==> (Jump(x, n, d, lo, hi) == lo <==> n as real * -d >= x - lo)
  {
    assert n as real * -d == -(n as real * d);
  }

  /** A face that stays outside the deadzone drives an axis to its limit: the limit is
      reached after `n` updates exactly when the steps taken cover the distance, that
      is, after the distance divided by the step, rounded up, and from then on. */
  lemma LimitsReachedIff(a: Angles, s: Snapshot, n: nat, p: Params)
    requires Proper(p) && InRange(a, p) && Usable(s)
    ensures var d, b := AxisStep(s.centerX, s.frameW, p.panSign, p.gainPan, p), AutoTimes(a, s, n, p);
            && (d > 0.0 ==> (b.pan == p.panMax <==> n as real * d >= p.panMax - a.pan))
            && (d < 0.0 ==> (b.pan == p.panMin <==> n as real * -d >= a.pan - p.panMin))
    ensures var e, b := AxisStep(s.centerY, s.frameH, p.tiltSign, p.gainTilt, p), AutoTimes(a, s, n, p);
            && (e > 0.0 ==> (b.tilt == p.tiltMax <==> n as real * e >= p.tiltMax - a.tilt))
            && (e < 0.0 ==> (b.tilt == p.tiltMin <==> n as real * -e >= a.tilt - p.tiltMin))
  {
    hide AxisStep, AutoTimes, Jump;
    Trajectory(a, s, n, p);
    LimitReached(a.pan, n, AxisStep(s.centerX, s.frameW, p.panSign, p.gainPan, p), p.panMin, p.panMax);
    LimitReached(a.tilt, n, AxisStep(s.centerY, s.frameH, p.tiltSign, p.gainTilt, p), p.tiltMin, p.tiltMax);
  }

  /** The tracker moves exactly when the error leaves the deadzone, provided that no
      factor of the step is zero. */
  lemma MovesIff(center: int, size: int, sign: real, gain: real, p: Params)
    requires Proper(p) && sign != 0.0 && gain != 0.0 && p.maxStepDeg > 0.0 && p.deadzonePx >= 0
    ensures AxisStep(center, size, sign, gain, p) != 0.0
            <==> Abs(ErrorOf(center, size)) > p.deadzonePx as real
  {
    var e := ErrorOf(center, size);
    if Abs(e) > p.deadzonePx as real { NonZeroProduct(sign, gain, e); }
  }

  lemma NonZeroProduct(x: real, y: real, z: real)
    requires x != 0.0 && y != 0.0 && z != 0.0
    ensures Correction(x, y, z) != 0.0
  {
    assert x * y != 0.0;
  }

  /** Where one axis goes from `x`, for an error of `e` pixels and a factor of `k` degrees
      per pixel: nowhere inside the deadzone; outside it in the direction of the product,
      to the nearest of the whole correction, the step limit and the end of the range. */
  predicate Follows(x: real, y: real, e: real, deadzone: real, k: real, step: real, lo: real, hi: real) {
    if -deadzone <= e <= deadzone then y == x
    else if k * e > 0.0 then
      y <= x + k * e && y <= x + step && y <= hi && (y == x + k * e || y == x + step || y == hi)
    else
      y >= x + k * e && y >= x - step && y >= lo && (y == x + k * e || y == x - step || y == lo)
  }

  /** Direction and size of the automatic step: the pan follows the face's horizontal
      distance from the middle of the frame, with its own sign, gain and range. */
  lemma PanFollows(a: Angles, s: Snapshot, p: Params)
    requires Proper(p) && InRange(a, p) && s.found && s.frameW > 0 && s.frameH > 0
    ensures Follows(a.pan, AfterAuto(a, s, p).pan, s.centerX as real - s.frameW as real / 2.0, p.deadzonePx as real,
                    p.panSign * p.gainPan, p.maxStepDeg, p.panMin, p.panMax)
  {
    hide Follows, Clamp, AxisStep, AfterAuto;
    AxisFollows(a.pan, s.centerX, s.frameW, p.panSign, p.gainPan, p.panMin, p.panMax, p);
    PanIs(a, s, p);
  }

  /** And the tilt follows its vertical distance, with its own. */
  lemma TiltFollows(a: Angles, s: Snapshot, p: Params)
    requires Proper(p) && InRange(a, p) && s.found && s.frameW > 0 && s.frameH > 0
    ensures Follows(a.tilt, AfterAuto(a, s, p).tilt, s.centerY as real - s.frameH as real / 2.0, p.deadzonePx as real,
                    p.tiltSign * p.gainTilt, p.maxStepDeg, p.tiltMin, p.tiltMax)
  {
    hide Follows, Clamp, AxisStep, AfterAuto;
    AxisFollows(a.tilt, s.centerY, s.frameH, p.tiltSign, p.gainTilt, p.tiltMin, p.tiltMax, p);
    TiltIs(a, s, p);
  }

  /** Without a face in a frame the tracker holds still. */
  lemma HoldsStill(a: Angles, s: Snapshot, p: Params)
    requires Proper(p) && !(s.found && s.frameW > 0 && s.frameH > 0)
    ensures AfterAuto(a, s, p) == a
  {
  }

  lemma PanIs(a: Angles, s: Snapshot, p: Params)
    requires Proper(p) && Usable(s)
    ensures AfterAuto(a, s, p).pan
            == Clamp(a.pan + AxisStep(s.centerX, s.frameW, p.panSign, p.gainPan, p), p.panMin, p.panMax)
  {
  }

  lemma TiltIs(a: Angles, s: Snapshot, p: Params)
    requires Proper(p) && Usable(s)
    ensures AfterAuto(a, s, p).tilt
            == Clamp(a.tilt + AxisStep(s.centerY, s.frameH, p.tiltSign, p.gainTilt, p), p.tiltMin, p.tiltMax)
  {
  }

  lemma AxisFollows(x: real, center: int, size: int, sign: real, gain: real, lo: real, hi: real, p: Params)
    requires Proper(p) && lo <= x <= hi
    ensures Follows(x, Clamp(x + AxisStep(center, size, sign, gain, p), lo, hi), center as real - size as real / 2.0,
                    p.deadzonePx as real, sign * gain, p.maxStepDeg, lo, hi)
  {
    hide Correction, Follows, Clamp;
    var e := ErrorOf(center, size);
    CorrectionIs(sign, gain, e);
    StepFollows(x, e, p.deadzonePx as real, sign * gain, Correction(sign, gain, e), p.maxStepDeg, lo, hi);
  }

  lemma StepFollows(x: real, e: real, deadzone: real, k: real, d: real, step: real, lo: real, hi: real)
    requires lo <= x <= hi && 0.0 <= step && d == k * e
    ensures var y := Clamp(x + Clamp(if Abs(e) > deadzone then d else 0.0, -step, step), lo, hi);
            Follows(x, y, e, deadzone, k, step, lo, hi)
  {
  }

  lemma CorrectionIs(sign: real, gain: real, e: real)
    ensures Correction(sign, gain, e) == sign * gain * e
  {
  }

  /** Told to move or to go somewhere, an axis goes there, or as near as its range allows. */
  predicate Nearest(want: real, lo: real, hi: real, got: real) {
    if want < lo then got == lo else if want > hi then got == hi else got == want
  }

  /** Steps are relative to where the axes are, settings are not; each axis on its own. */
  lemma OrdersObeyed(a: Angles, pan: real, tilt: real, p: Params)
    requires Proper(p)
    ensures var b := AfterNudge(a, pan, tilt, p);
            Nearest(a.pan + pan, p.panMin, p.panMax, b.pan) && Nearest(a.tilt + tilt, p.tiltMin, p.tiltMax, b.tilt)
    ensures var b := AfterSet(pan, tilt, p);
            Nearest(pan, p.panMin, p.panMax, b.pan) && Nearest(tilt, p.tiltMin, p.tiltMax, b.tilt)
  {
  }
}
