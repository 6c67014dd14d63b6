/**
 * Rollout generation: `generate_rollout` threads a pose through the kinematic step once per
 * control row, and `generate_mpc_rollouts` builds one constant-control rollout per candidate
 * steering angle drawn from `np.arange`.
 */
module Rollouts {
  import opened Faults
  import opened Kinematics

  /** ⌈x⌉, written with Floor. */
  function Ceil(x: real): (c: int)
    ensures x <= c as real < x + 1.0
  {
    -((-x).Floor)
  }

  /** The length `np.arange(start, stop, step)` has: ⌈(stop - start) / step⌉, or 0 if that is negative. */
  function ArangeLength(start: real, stop: real, step: real): nat
    requires step != 0.0
  {
    var q := Ceil((stop - start) / step);
    if q > 0 then q else 0
  }

  /** `np.arange(start, stop, step)`: start, start + step, ... up to but excluding stop. */
  function Arange(start: real, stop: real, step: real): (values: seq<real>)
    requires step != 0.0
    ensures |values| == ArangeLength(start, stop, step)
    ensures forall i :: 0 <= i < |values| ==> values[i] == start + (i as real) * step
  {
    seq(ArangeLength(start, stop, step), i => start + (i as real) * step)
  }

  /** For i below q and a positive step, start + i·step stays below start + q·step. */
  lemma ScaledBelow(i: real, q: real, step: real)
    requires step > 0.0 && i < q
    ensures i * step < q * step
  {
  }

  /**
   * With a positive step every value lies below stop and the next one would not:
   * the length is exactly the number of values start + i·step below stop.
   */
  lemma ArangeIncreasing(start: real, stop: real, step: real)
    requires step > 0.0
    ensures var values := Arange(start, stop, step);
            (forall i :: 0 <= i < |values| ==> values[i] < stop)
            && start + (|values| as real) * step >= stop
  {
    var values := Arange(start, stop, step);
    var q := (stop - start) / step;
    assert q * step == stop - start;
    forall i | 0 <= i < |values|
      ensures values[i] < stop
    {
      assert (i as real) < q;
      ScaledBelow(i as real, q, step);
    }
    assert q <= |values| as real;
    assert q * step <= (|values| as real) * step;
  }

  /** With a negative step every value lies above stop and the next one would not. */
  lemma ArangeDecreasing(start: real, stop: real, step: real)
    requires step < 0.0
    ensures var values := Arange(start, stop, step);
            (forall i :: 0 <= i < |values| ==> values[i] > stop)
            && start + (|values| as real) * step <= stop
  {
    var values := Arange(start, stop, step);
    var q := (stop - start) / step;
    assert q * step == stop - start;
    forall i | 0 <= i < |values|
      ensures values[i] > stop
    {
      assert (i as real) < q;
      ScaledBelow(i as real, q, -step);
    }
    assert q <= |values| as real;
    ScaledBelowOrEqual(q, |values| as real, -step);
  }

  lemma ScaledBelowOrEqual(a: real, b: real, c: real)
    requires c > 0.0 && a <= b
    ensures a * c <= b * c
  {
  }

  /** An empty or inverted range with a positive step gives no candidates. */
  lemma ArangeEmpty(start: real, stop: real, step: real)
    requires step > 0.0 && stop <= start
    ensures Arange(start, stop, step) == []
  {
  }

  predicate AllIntegrable(trig: Trig, controls: seq<Control>, carLength: real) {
    forall i :: 0 <= i < |controls| ==> Integrable(trig, controls[i].delta, carLength)
  }

  /** The poses after 1, 2, ..., |controls| steps from the origin. */
  function Rollout(trig: Trig, controls: seq<Control>, carLength: real): (poses: seq<Pose>)
    requires AllIntegrable(trig, controls, carLength)
    ensures |poses| == |controls|
    decreases |controls|
  {
    if controls == [] then []
    else
      var prev := Rollout(trig, controls[..|controls| - 1], carLength);
      var current := if prev == [] then Origin else prev[|prev| - 1];
      prev + [Step(trig, current, controls[|controls| - 1], carLength)]
  }

  /** The rollout of a prefix of the controls is the prefix of the rollout. */
  lemma {:induction false} RolloutPrefix(trig: Trig, controls: seq<Control>, carLength: real, k: nat)
    requires AllIntegrable(trig, controls, carLength)
    requires k <= |controls|
    ensures Rollout(trig, controls[..k], carLength) == Rollout(trig, controls, carLength)[..k]
    decreases |controls|
  {
    if k < |controls| {
      var init := controls[..|controls| - 1];
      assert init[..k] == controls[..k];
      RolloutPrefix(trig, init, carLength, k);
      assert Rollout(trig, controls, carLength)[..|controls| - 1] == Rollout(trig, init, carLength);
    } else {
      assert controls[..k] == controls;
    }
  }

  /** The first pose is one step from the origin. */
  lemma RolloutStart(trig: Trig, controls: seq<Control>, carLength: real)
    requires AllIntegrable(trig, controls, carLength)
    requires |controls| > 0
    ensures Rollout(trig, controls, carLength)[0] == Step(trig, Origin, controls[0], carLength)
  {
  }

  /** Every later pose is one step from the pose before it. */
  lemma RolloutRecurrence(trig: Trig, controls: seq<Control>, carLength: real, i: nat)
    requires AllIntegrable(trig, controls, carLength)
    requires 0 < i < |controls|
    ensures Rollout(trig, controls, carLength)[i]
            == Step(trig, Rollout(trig, controls, carLength)[i - 1], controls[i], carLength)
  {
  }

  /** Every heading along a rollout lies in [2π, 4π). */
  lemma {:induction false} RolloutHeadings(trig: Trig, controls: seq<Control>, carLength: real, t: nat)
    requires AllIntegrable(trig, controls, carLength)
    requires t < |controls|
    ensures TwoPi <= Rollout(trig, controls, carLength)[t].theta < 2.0 * TwoPi
  {
    if t == 0 {
      RolloutStart(trig, controls, carLength);
    } else {
      RolloutRecurrence(trig, controls, carLength, t);
    }
  }

  /**
   * `generate_rollout`: a T-row trajectory, zero-filled, whose first |controls| rows are written
   * by stepping from the origin. The initial pose argument is not used. A control row past
   * row T - 1 has no row to be written to, and the assignment raises `IndexError`.
   */
  method GenerateRollout(trig: Trig, initPose: Pose, controls: seq<Control>, carLength: real, T: nat)
    returns (trajectory: array<Pose>, status: Result<()>)
    requires AllIntegrable(trig, controls, carLength)
    ensures fresh(trajectory)
    ensures trajectory.Length == T
    ensures status.Success? <==> |controls| <= T
    ensures status.Failure? ==> status.error == IndexError
    ensures status.Success? ==> trajectory[..|controls|] == Rollout(trig, controls, carLength)
    ensures status.Success? ==> forall t :: |controls| <= t < T ==> trajectory[t] == Origin
  {
    trajectory := new Pose[T](_ => Origin);
    var current := Origin;
    for i := 0 to |controls|
      invariant i <= T
      invariant trajectory[..i] == Rollout(trig, controls[..i], carLength)
      invariant current == if i == 0 then Origin else trajectory[i - 1]
      invariant forall t :: i <= t < T ==> trajectory[t] == Origin
    {
      assert controls[..i + 1][..i] == controls[..i];
      var next := KinematicModelStep(trig, current, controls[i], carLength);
      if i >= T {
        return trajectory, Failure(IndexError);
      }
      trajectory[i] := next;
      current := trajectory[i];
      assert trajectory[..i + 1] == trajectory[..i] + [trajectory[i]];
    }
    assert controls[..|controls|] == controls;
    status := Success(());
  }

  /** T copies of the control (speed, delta, dt). */
  function ConstantControls(speed: real, delta: real, dt: real, T: nat): (controls: seq<Control>)
    ensures |controls| == T
    ensures forall t :: 0 <= t < T ==> controls[t] == Control(speed, delta, dt)
  {
    seq(T, _ => Control(speed, delta, dt))
  }

  predicate CandidatesIntegrable(trig: Trig, deltas: seq<real>, carLength: real) {
    forall i :: 0 <= i < |deltas| ==> Integrable(trig, deltas[i], carLength)
  }

  /** The rollout for candidate steering angle delta: T steps under the constant control (speed, delta, dt). */
  function CandidateRollout(trig: Trig, speed: real, delta: real, dt: real, T: nat, carLength: real): (poses: seq<Pose>)
    requires Integrable(trig, delta, carLength)
    ensures |poses| == T
  {
    var controls := ConstantControls(speed, delta, dt, T);
    assert AllIntegrable(trig, controls, carLength);
    Rollout(trig, controls, carLength)
  }

  /**
   * `generate_mpc_rollouts`: the candidate steering angles of `np.arange(minDelta, maxDelta, deltaIncr)`
   * and an N×T table whose row i is the rollout under the constant control (speed, deltas[i], dt).
   */
  method GenerateMpcRollouts(trig: Trig, speed: real, minDelta: real, maxDelta: real, deltaIncr: real,
                             dt: real, T: nat, carLength: real)
    returns (rollouts: array2<Pose>, deltas: array<real>)
    requires deltaIncr != 0.0
    requires CandidatesIntegrable(trig, Arange(minDelta, maxDelta, deltaIncr), carLength)
    ensures fresh(rollouts) && fresh(deltas)
    ensures deltas[..] == Arange(minDelta, maxDelta, deltaIncr)
    ensures rollouts.Length0 == deltas.Length && rollouts.Length1 == T
    ensures forall i, t :: 0 <= i < rollouts.Length0 && 0 <= t < T ==>
              Integrable(trig, deltas[i], carLength) &&
              rollouts[i, t] == CandidateRollout(trig, speed, deltas[i], dt, T, carLength)[t]
  {
    var values := Arange(minDelta, maxDelta, deltaIncr);
    deltas := new real[|values|](i requires 0 <= i < |values| => values[i]);
    var n := deltas.Length;
    var initPose := Origin;
    rollouts := new Pose[n, T]((_, _) => Origin);
    for i := 0 to n
      invariant deltas[..] == values
      invariant forall m, t :: 0 <= m < i && 0 <= t < T ==>
                  Integrable(trig, deltas[m], carLength) &&
                  rollouts[m, t] == CandidateRollout(trig, speed, deltas[m], dt, T, carLength)[t]
    {
      assert Integrable(trig, deltas[i], carLength) by {
        assert deltas[i] == values[i];
      }
      var controls := ConstantControls(speed, deltas[i], dt, T);
      var trajectory, _ := GenerateRollout(trig, initPose, controls, carLength, T);
      assert trajectory[..] == CandidateRollout(trig, speed, deltas[i], dt, T, carLength);
      SetRow(rollouts, i, trajectory);
    }
  }

  /** The slice assignment `table[i, :] = row`. */
  method SetRow(table: array2<Pose>, i: nat, row: array<Pose>)
    requires i < table.Length0 && row.Length == table.Length1
    modifies table
    ensures forall m, t :: 0 <= m < table.Length0 && 0 <= t < table.Length1 ==>
              table[m, t] == if m == i then row[t] else old(table[m, t])
  {
    forall t | 0 <= t < table.Length1 {
      table[i, t] := row[t];
    }
  }

  /** Row i of the table starts one step from the origin under candidate i; each row has T poses. */
  lemma CandidateRolloutStart(trig: Trig, speed: real, delta: real, dt: real, T: nat, carLength: real)
    requires Integrable(trig, delta, carLength)
    requires T > 0
    ensures CandidateRollout(trig, speed, delta, dt, T, carLength)[0]
            == Step(trig, Origin, Control(speed, delta, dt), carLength)
  {
    var controls := ConstantControls(speed, delta, dt, T);
    assert AllIntegrable(trig, controls, carLength);
    RolloutStart(trig, controls, carLength);
  }
}
