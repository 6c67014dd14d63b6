/**
 * The bicycle kinematic model of `kinematic_model_step`: one integration step from a pose
 * under a control, followed by the two heading-wrap loops.
 * Trigonometry is uninterpreted: the functions are passed in as a `Trig` record.
 */
module Kinematics {

  /** 2π as `2*np.pi`: the shortest decimal that rounds to that float64 (whose exact value is 6.28318530717958623...). */
  const TwoPi: real := 6.283185307179586

  /** Steering angles of smaller magnitude are integrated as straight-line motion. */
  const StraightThreshold: real := 0.01

  /** A pose [x, y, theta] in the body frame of the car. */
  datatype Pose = Pose(x: real, y: real, theta: real)

  /** A control [v, delta, dt]: speed, steering angle, duration. */
  datatype Control = Control(v: real, delta: real, dt: real)

  /** The trigonometric functions the step uses, left uninterpreted. */
  datatype Trig = Trig(
    sin: real -> real,
    cos: real -> real,
    tan: real -> real,
    arctan: real -> real,
    atan2: (real, real) -> real)

  /** The raw change [dx, dy, dtheta] computed by the step before the heading wrap. */
  datatype Motion = Motion(dx: real, dy: real, dtheta: real)

  /** The pose every rollout starts from. */
  const Origin: Pose := Pose(0.0, 0.0, 0.0)

  function Abs(r: real): (a: real)
    ensures a >= 0.0
    ensures a == r || a == -r
  {
    if r < 0.0 then -r else r
  }

  predicate IsStraight(delta: real) {
    Abs(delta) < StraightThreshold
  }

  function SinTwoBeta(trig: Trig, delta: real): real {
    var beta := trig.arctan(0.5 * trig.tan(delta));
    trig.sin(2.0 * beta)
  }

  /** Off the straight branch the step divides by the car length and by sin(2β); the straight branch divides by neither. */
  predicate Integrable(trig: Trig, delta: real, carLength: real) {
    IsStraight(delta) || (carLength != 0.0 && SinTwoBeta(trig, delta) != 0.0)
  }

  /** The branch of the step: straight-line motion for near-zero steering, a bicycle arc otherwise. */
  function RawMotion(trig: Trig, pose: Pose, control: Control, carLength: real): Motion
    requires Integrable(trig, control.delta, carLength)
  {
    if IsStraight(control.delta) then
      Motion(control.v * trig.cos(pose.theta) * control.dt,
             control.v * trig.sin(pose.theta) * control.dt,
             0.0)
    else
      var sin2beta := SinTwoBeta(trig, control.delta);
      var dtheta := ((control.v / carLength) * sin2beta) * control.dt;
      var radius := carLength / sin2beta;
      Motion(radius * (trig.sin(pose.theta + dtheta) - trig.sin(pose.theta)),
             radius * (-1.0 * trig.cos(pose.theta + dtheta) + trig.cos(pose.theta)),
             dtheta)
  }

  /** The first wrap loop: subtract 2π from the heading change while theta + d exceeds 2π. */
  function LowerHeadingChange(theta: real, d: real): (r: real)
    ensures theta + r <= TwoPi
    ensures theta + d <= TwoPi ==> r == d
    decreases ((theta + d) / TwoPi).Floor
  {
    if theta + d > TwoPi then LowerHeadingChange(theta, d - TwoPi) else d
  }

  /** The second wrap loop: add 2π to the heading change while theta + d is below 2π. */
  function RaiseHeadingChange(theta: real, d: real): (r: real)
    ensures TwoPi <= theta + r
    ensures theta + d >= TwoPi ==> r == d
    ensures theta + d < TwoPi ==> theta + r < 2.0 * TwoPi
    decreases (1.0 - (theta + d) / TwoPi).Floor
  {
    if theta + d < TwoPi then RaiseHeadingChange(theta, d + TwoPi) else d
  }

  /** Both wrap loops, in the order the step runs them. */
  function WrapHeadingChange(theta: real, d: real): (r: real)
    ensures TwoPi <= theta + r < 2.0 * TwoPi
  {
    RaiseHeadingChange(theta, LowerHeadingChange(theta, d))
  }

  /** The pose `kinematic_model_step` returns. */
  function Step(trig: Trig, pose: Pose, control: Control, carLength: real): (next: Pose)
    requires Integrable(trig, control.delta, carLength)
    ensures TwoPi <= next.theta < 2.0 * TwoPi
  {
    var m := RawMotion(trig, pose, control, carLength);
    Pose(pose.x + m.dx, pose.y + m.dy, pose.theta + WrapHeadingChange(pose.theta, m.dtheta))
  }

  /** `kinematic_model_step`: the branch, then the two while loops that shift dtheta by 2π. */
  method KinematicModelStep(trig: Trig, pose: Pose, control: Control, carLength: real) returns (next: Pose)
    requires Integrable(trig, control.delta, carLength)
    ensures next.x == pose.x + RawMotion(trig, pose, control, carLength).dx
    ensures next.y == pose.y + RawMotion(trig, pose, control, carLength).dy
    ensures TwoPi <= next.theta < 2.0 * TwoPi
    ensures next == Step(trig, pose, control, carLength)
  {
    var m := RawMotion(trig, pose, control, carLength);
    var theta := pose.theta;
    var dtheta := m.dtheta;
    while theta + dtheta > TwoPi
      invariant LowerHeadingChange(theta, dtheta) == LowerHeadingChange(theta, m.dtheta)
      decreases ((theta + dtheta) / TwoPi).Floor
    {
      dtheta := dtheta - TwoPi;
    }
    ghost var lowered := dtheta;
    while theta + dtheta < TwoPi
      invariant theta + lowered <= TwoPi
      invariant RaiseHeadingChange(theta, dtheta) == RaiseHeadingChange(theta, lowered)
      decreases (1.0 - (theta + dtheta) / TwoPi).Floor
    {
      dtheta := dtheta + TwoPi;
    }
    next := Pose(pose.x + m.dx, pose.y + m.dy, theta + dtheta);
  }

  /** The first loop only ever subtracts whole turns. */
  lemma {:induction false} LowerByWholeTurns(theta: real, d: real) returns (k: nat)
    ensures LowerHeadingChange(theta, d) == d - (k as real) * TwoPi
    decreases ((theta + d) / TwoPi).Floor
  {
    if theta + d > TwoPi {
      var k' := LowerByWholeTurns(theta, d - TwoPi);
      k := k' + 1;
    } else {
      k := 0;
    }
  }

  /** The second loop only ever adds whole turns. */
  lemma {:induction false} RaiseByWholeTurns(theta: real, d: real) returns (k: nat)
    ensures RaiseHeadingChange(theta, d) == d + (k as real) * TwoPi
    decreases (1.0 - (theta + d) / TwoPi).Floor
  {
    if theta + d < TwoPi {
      var k' := RaiseByWholeTurns(theta, d + TwoPi);
      k := k' + 1;
    } else {
      k := 0;
    }
  }

  /** The wrapped heading differs from theta + dtheta by a whole number of turns. */
  lemma StepHeadingByWholeTurns(trig: Trig, pose: Pose, control: Control, carLength: real) returns (k: int)
    requires Integrable(trig, control.delta, carLength)
    ensures Step(trig, pose, control, carLength).theta
            == pose.theta + RawMotion(trig, pose, control, carLength).dtheta + (k as real) * TwoPi
  {
    var d := RawMotion(trig, pose, control, carLength).dtheta;
    var down := LowerByWholeTurns(pose.theta, d);
    var up := RaiseByWholeTurns(pose.theta, LowerHeadingChange(pose.theta, d));
    k := up as int - down as int;
  }

  /** A heading already in [2π, 4π) with no change is left alone by both loops. */
  lemma WrapKeepsCanonicalHeading(theta: real)
    requires TwoPi <= theta < 2.0 * TwoPi
    ensures WrapHeadingChange(theta, 0.0) == 0.0
  {
  }

  /** From heading 0 with no change, the wrap ends at exactly 2π. */
  lemma WrapFromZero()
    ensures WrapHeadingChange(0.0, 0.0) == TwoPi
  {
  }

  /** sin² + cos² = 1, the one trigonometric law used below. */
  ghost predicate Pythagorean(trig: Trig) {
    forall a :: trig.sin(a) * trig.sin(a) + trig.cos(a) * trig.cos(a) == 1.0
  }

  /**
   * On the straight branch the heading change is zero and the car moves the distance v·dt
   * (stated on squares, as no square root is taken).
   */
  lemma StraightBranch(trig: Trig, pose: Pose, control: Control, carLength: real)
    requires Integrable(trig, control.delta, carLength)
    requires IsStraight(control.delta)
    requires Pythagorean(trig)
    ensures RawMotion(trig, pose, control, carLength).dtheta == 0.0
    ensures var m := RawMotion(trig, pose, control, carLength);
            m.dx * m.dx + m.dy * m.dy == (control.v * control.dt) * (control.v * control.dt)
  {
  }

  /** On the arc branch the heading changes exactly when the car moves for a non-zero time at non-zero speed. */
  lemma ArcBranchTurns(trig: Trig, pose: Pose, control: Control, carLength: real)
    requires Integrable(trig, control.delta, carLength)
    requires !IsStraight(control.delta)
    ensures RawMotion(trig, pose, control, carLength).dtheta == 0.0 <==> control.v == 0.0 || control.dt == 0.0
  {
  }
}
