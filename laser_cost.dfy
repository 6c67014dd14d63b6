/**
 * `LaserWanderer.compute_cost`: the steering-effort term plus a penalty for each of three
 * adjacent laser rays that the rollout pose reaches past, averaged over the three rays.
 */
module LaserCost {
  import opened Faults
  import opened Kinematics

  /** `MAX_PENALTY`, added once per penalised ray. */
  const MaxPenalty: real := 10000.0

  /** A laser scan: the ray ranges and the angle of ray 0 and between consecutive rays. */
  datatype Scan = Scan(ranges: seq<real>, angleMin: real, angleIncrement: real)

  /** Python 2 `round`: to the nearest integer, halves away from zero. */
  function Round(x: real): int {
    if x >= 0.0 then (x + 0.5).Floor else -((-x + 0.5).Floor)
  }

  /** Round gives an integer within one half of its argument, of the same sign. */
  lemma RoundNearest(x: real)
    ensures -0.5 <= (Round(x) as real) - x <= 0.5
    ensures x >= 0.0 ==> Round(x) >= 0
    ensures x <= 0.0 ==> Round(x) <= 0
  {
  }

  /** Rounding commutes with negation. */
  lemma RoundOdd(x: real)
    ensures Round(-x) == -Round(x)
  {
  }

  /** Halves round away from zero, as in Python 2 (Python 3 would round them to even). */
  lemma RoundHalfAwayFromZero(n: nat)
    ensures Round(n as real + 0.5) == n + 1
    ensures Round(-(n as real) - 0.5) == -(n + 1)
  {
    assert n as real + 0.5 + 0.5 == (n + 1) as real;
  }

  /** Python sequence indexing: negative indices count from the end, others raise IndexError. */
  function PyIndex(s: seq<real>, i: int): (r: Result<real>)
    ensures r.Success? <==> -|s| <= i < |s|
    ensures r.Failure? ==> r.error == IndexError
  {
    if 0 <= i < |s| then Success(s[i])
    else if -|s| <= i < 0 then Success(s[|s| + i])
    else Failure(IndexError)
  }

  /** The index of the ray whose bearing is nearest to the bearing of the pose. */
  function RayIndex(trig: Trig, scan: Scan, pose: Pose): (r: Result<int>)
    ensures r.Success? <==> scan.angleIncrement != 0.0
    ensures r.Failure? ==> r.error == ZeroDivision
  {
    if scan.angleIncrement == 0.0 then Failure(ZeroDivision)
    else Success(Round((trig.atan2(pose.y, pose.x) - scan.angleMin) / scan.angleIncrement))
  }

  /** The three ranges read, in the order read: at idx, idx + 1 and idx - 1. */
  function SampledRays(trig: Trig, scan: Scan, pose: Pose): (r: Result<seq<real>>)
    ensures r.Success? ==> |r.value| == 3
  {
    var idx :- RayIndex(trig, scan, pose);
    var d0 :- PyIndex(scan.ranges, idx);
    var d1 :- PyIndex(scan.ranges, idx + 1);
    var d2 :- PyIndex(scan.ranges, idx - 1);
    Success([d0, d1, d2])
  }

  /** x² + y², the squared distance the source compares with a ray's range. */
  function PoseDistance(pose: Pose): real {
    pose.x * pose.x + pose.y * pose.y
  }

  /** A ray penalises the pose when the pose lies beyond its range shortened by |laser_offset|. */
  predicate Penalised(poseDistance: real, ray: real, laserOffset: real) {
    poseDistance > ray - Abs(laserOffset)
  }

  /** How many of the rays penalise the pose. */
  function PenaltyCount(poseDistance: real, rays: seq<real>, laserOffset: real): (k: nat)
    ensures k <= |rays|
    ensures k == 0 <==> forall i :: 0 <= i < |rays| ==> !Penalised(poseDistance, rays[i], laserOffset)
    ensures k == |rays| <==> forall i :: 0 <= i < |rays| ==> Penalised(poseDistance, rays[i], laserOffset)
  {
    if rays == [] then 0
    else
      (if Penalised(poseDistance, rays[0], laserOffset) then 1 else 0)
      + PenaltyCount(poseDistance, rays[1..], laserOffset)
  }

  function Penalty(poseDistance: real, ray: real, laserOffset: real): real {
    if Penalised(poseDistance, ray, laserOffset) then MaxPenalty else 0.0
  }

  /** The value `compute_cost` returns for steering angle delta and a rollout pose. */
  function Cost(trig: Trig, delta: real, pose: Pose, scan: Scan, laserOffset: real): (r: Result<real>)
    ensures r.Success? ==> r.value >= 0.0
  {
    var rays :- SampledRays(trig, scan, pose);
    var distance := PoseDistance(pose);
    Success((Abs(delta) + Penalty(distance, rays[0], laserOffset)
                        + Penalty(distance, rays[1], laserOffset)
                        + Penalty(distance, rays[2], laserOffset)) / 3.0)
  }

  /**
   * The cost is (|delta| + k MAX_PENALTY) / 3 for the number k of sampled rays that penalise the pose,
   * so it lies between |delta| / 3 and (|delta| + 3 MAX_PENALTY) / 3.
   */
  lemma CostFormula(trig: Trig, delta: real, pose: Pose, scan: Scan, laserOffset: real)
    ensures Cost(trig, delta, pose, scan, laserOffset).Success? <==> SampledRays(trig, scan, pose).Success?
    ensures var r := Cost(trig, delta, pose, scan, laserOffset);
            r.Success? ==>
              && r.value == (Abs(delta) + (PenaltyCount(PoseDistance(pose), SampledRays(trig, scan, pose).value, laserOffset) as real) * MaxPenalty) / 3.0
              && Abs(delta) / 3.0 <= r.value <= (Abs(delta) + 3.0 * MaxPenalty) / 3.0
  {
  }

  /** `compute_cost` as written: the cost starts at |delta| and each penalised ray adds MAX_PENALTY. */
  method ComputeCost(trig: Trig, delta: real, pose: Pose, scan: Scan, laserOffset: real) returns (r: Result<real>)
    ensures r == Cost(trig, delta, pose, scan, laserOffset)
  {
    var cost := Abs(delta);
    var idx :- RayIndex(trig, scan, pose);
    var laserDistance0 :- PyIndex(scan.ranges, idx);
    var laserDistance1 :- PyIndex(scan.ranges, idx + 1);
    var laserDistance2 :- PyIndex(scan.ranges, idx - 1);
    var poseDistance := pose.x * pose.x + pose.y * pose.y;
    if poseDistance > laserDistance0 - Abs(laserOffset) {
      cost := cost + MaxPenalty;
    }
    if poseDistance > laserDistance1 - Abs(laserOffset) {
      cost := cost + MaxPenalty;
    }
    if poseDistance > laserDistance2 - Abs(laserOffset) {
      cost := cost + MaxPenalty;
    }
    cost := cost / 3.0;
    r := Success(cost);
  }

  /** The cost does not depend on the sign of the steering angle. */
  lemma CostIgnoresSteeringSign(trig: Trig, delta: real, pose: Pose, scan: Scan, laserOffset: real)
    ensures Cost(trig, -delta, pose, scan, laserOffset) == Cost(trig, delta, pose, scan, laserOffset)
  {
  }

  /**
   * The cost is defined exactly when the angle increment is non-zero and idx - 1 and idx + 1 are
   * both valid Python indices, that is -len + 1 <= idx <= len - 2.
   */
  lemma CostDefinedIff(trig: Trig, delta: real, pose: Pose, scan: Scan, laserOffset: real)
    ensures Cost(trig, delta, pose, scan, laserOffset).Success? <==>
              scan.angleIncrement != 0.0 &&
              -|scan.ranges| + 1 <= RayIndex(trig, scan, pose).value <= |scan.ranges| - 2
  {
  }

  /** For 1 <= idx <= len - 2 the three rays read are ranges[idx], ranges[idx + 1] and ranges[idx - 1]. */
  lemma SampledRaysInside(trig: Trig, scan: Scan, pose: Pose)
    requires scan.angleIncrement != 0.0
    requires 1 <= RayIndex(trig, scan, pose).value <= |scan.ranges| - 2
    ensures var idx := RayIndex(trig, scan, pose).value;
            SampledRays(trig, scan, pose)
            == Success([scan.ranges[idx], scan.ranges[idx + 1], scan.ranges[idx - 1]])
  {
  }

  /** At idx = 0 the third read, ranges[-1], is the last ray of the scan. */
  lemma SampledRaysWrapAtZero(trig: Trig, scan: Scan, pose: Pose)
    requires scan.angleIncrement != 0.0
    requires RayIndex(trig, scan, pose).value == 0
    requires |scan.ranges| >= 2
    ensures SampledRays(trig, scan, pose)
            == Success([scan.ranges[0], scan.ranges[1], scan.ranges[|scan.ranges| - 1]])
  {
  }

  /** At idx = len - 1 the second read, ranges[len], raises IndexError. */
  lemma SampledRaysPastEnd(trig: Trig, scan: Scan, pose: Pose)
    requires scan.angleIncrement != 0.0
    requires RayIndex(trig, scan, pose).value == |scan.ranges| - 1
    ensures SampledRays(trig, scan, pose) == Failure(IndexError)
  {
  }

  /** With no sampled ray penalising the pose, the cost is |delta| / 3. */
  lemma ClearPathCost(trig: Trig, delta: real, pose: Pose, scan: Scan, laserOffset: real)
    requires SampledRays(trig, scan, pose).Success?
    requires forall i :: 0 <= i < 3 ==>
               !Penalised(PoseDistance(pose), SampledRays(trig, scan, pose).value[i], laserOffset)
    ensures Cost(trig, delta, pose, scan, laserOffset) == Success(Abs(delta) / 3.0)
  {
  }

  /** With all three sampled rays penalising the pose, the cost is (|delta| + 3 MAX_PENALTY) / 3. */
  lemma BlockedPathCost(trig: Trig, delta: real, pose: Pose, scan: Scan, laserOffset: real)
    requires SampledRays(trig, scan, pose).Success?
    requires forall i :: 0 <= i < 3 ==>
               Penalised(PoseDistance(pose), SampledRays(trig, scan, pose).value[i], laserOffset)
    ensures Cost(trig, delta, pose, scan, laserOffset) == Success((Abs(delta) + 3.0 * MaxPenalty) / 3.0)
  {
  }
}
