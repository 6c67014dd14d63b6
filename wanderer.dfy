/**
 * `LaserWanderer.wander_cb` without its ROS messages: sweep every (candidate, step) pair while
 * the clock is before the deadline, adding each step cost to the candidate's total, then pick
 * the candidate of least total as `np.argmin` does.
 */
module Wandering {
  import opened Faults
  import opened Kinematics
  import opened LaserCost

  /** The fields a `LaserWanderer` stores; none is changed after construction. */
  datatype LaserWanderer = LaserWanderer(
    rollouts: seq<seq<Pose>>,
    deltas: seq<real>,
    speed: real,
    computeTime: real,
    laserOffset: real)

  /** The steering angle and speed the callback publishes. */
  datatype Command = Command(steeringAngle: real, speed: real)

  /** `rollouts.shape[1]`. */
  function Horizon(w: LaserWanderer): nat {
    if |w.rollouts| == 0 then 0 else |w.rollouts[0]|
  }

  /** The rollouts form an array with a row for every candidate. */
  predicate WellShaped(w: LaserWanderer) {
    && |w.deltas| <= |w.rollouts|
    && forall n :: 0 <= n < |w.rollouts| ==> |w.rollouts[n]| == Horizon(w)
  }

  /** The cost of step t of candidate n, as `compute_cost` gives it. */
  function StepCost(trig: Trig, w: LaserWanderer, scan: Scan, n: nat, t: nat): Result<real>
    requires WellShaped(w) && n < |w.deltas| && t < Horizon(w)
  {
    Cost(trig, w.deltas[n], w.rollouts[n][t], scan, w.laserOffset)
  }

  /** A grid of step costs: one row per candidate, one entry per step of its rollout. */
  predicate Shaped(g: seq<seq<Result<real>>>, rows: nat, width: nat) {
    |g| == rows && forall n :: 0 <= n < |g| ==> |g[n]| == width
  }

  /** Every cost in the grid that is defined is non-negative. */
  predicate NonNegative(g: seq<seq<Result<real>>>) {
    forall n, t :: 0 <= n < |g| && 0 <= t < |g[n]| && g[n][t].Success? ==> g[n][t].value >= 0.0
  }

  /** The step costs of every candidate over the whole horizon. */
  function StepCosts(trig: Trig, w: LaserWanderer, scan: Scan): (g: seq<seq<Result<real>>>)
    requires WellShaped(w)
    ensures Shaped(g, |w.deltas|, Horizon(w))
    ensures forall n, t {:trigger StepCost(trig, w, scan, n, t)} ::
              0 <= n < |w.deltas| && 0 <= t < Horizon(w) ==> g[n][t] == StepCost(trig, w, scan, n, t)
    ensures NonNegative(g)
  {
    seq(|w.deltas|, n requires 0 <= n < |w.deltas| =>
      seq(Horizon(w), t requires 0 <= t < Horizon(w) => StepCost(trig, w, scan, n, t)))
  }

  /** The costs of steps 0 .. t-1 of row n added in order, or the first fault among them. */
  function RowCost(g: seq<seq<Result<real>>>, n: nat, t: nat): (r: Result<real>)
    requires n < |g| && t <= |g[n]|
    ensures r.Success? ==> forall u :: 0 <= u < t ==> g[n][u].Success?
    ensures r.Success? && NonNegative(g) ==> r.value >= 0.0
    decreases t
  {
    if t == 0 then Success(0.0)
    else
      var sum :- RowCost(g, n, t - 1);
      var cost :- g[n][t - 1];
      Success(sum + cost)
  }

  /** The full-row total of every row below n, or the first fault in sweep order. */
  function SweepTotals(g: seq<seq<Result<real>>>, n: nat): (r: Result<seq<real>>)
    requires n <= |g|
    ensures r.Success? ==> |r.value| == n
    ensures r.Success? ==> forall m :: 0 <= m < n ==> RowCost(g, m, |g[m]|) == Success(r.value[m])
    decreases n
  {
    if n == 0 then Success([])
    else
      var totals :- SweepTotals(g, n - 1);
      var row :- RowCost(g, n - 1, |g[n - 1]|);
      Success(totals + [row])
  }

  /** x added k times to zero, as k sweeps add a candidate's row total. */
  function Repeated(k: nat, x: real): real {
    if k == 0 then 0.0 else Repeated(k - 1, x) + x
  }

  function Scale(k: nat, s: seq<real>): (r: seq<real>)
    ensures |r| == |s|
  {
    seq(|s|, i requires 0 <= i < |s| => Repeated(k, s[i]))
  }

  /** `delta_costs` after k completed sweeps: zero before the first, each row total added k times after. */
  function Accumulated(g: seq<seq<Result<real>>>, k: nat): (r: Result<seq<real>>)
    ensures r.Success? ==> |r.value| == |g|
  {
    if k == 0 then Success(seq(|g|, _ => 0.0))
    else
      var totals :- SweepTotals(g, |g|);
      Success(Scale(k, totals))
  }

  /** `np.argmin`: the first index holding the least value. */
  function ArgMin(s: seq<real>): (i: nat)
    requires |s| > 0
    ensures i < |s|
    ensures forall j :: 0 <= j < |s| ==> s[i] <= s[j]
    ensures forall j :: 0 <= j < i ==> s[j] > s[i]
  {
    if |s| == 1 then 0
    else
      var i := ArgMin(s[..|s| - 1]);
      if s[|s| - 1] < s[i] then |s| - 1 else i
  }

  /** The index chosen after k sweeps, or the fault that stops the callback. */
  function Chosen(g: seq<seq<Result<real>>>, k: nat): (r: Result<nat>)
    ensures r.Success? ==> r.value < |g|
  {
    var costs :- Accumulated(g, k);
    if |costs| == 0 then Failure(EmptyArgMin) else Success(ArgMin(costs))
  }

  /** The command published after k sweeps over the step costs g, or the fault that stops the callback. */
  function Decision(w: LaserWanderer, g: seq<seq<Result<real>>>, k: nat): (r: Result<Command>)
    requires |g| == |w.deltas|
    ensures r.Success? <==> Chosen(g, k).Success?
    ensures r.Success? ==> r.value == Command(w.deltas[Chosen(g, k).value], w.speed)
  {
    var chosen :- Chosen(g, k);
    Success(Command(w.deltas[chosen], w.speed))
  }

  /** Some reading after the first is at or past the deadline, so the busy loop ends. */
  predicate ReachesDeadline(clock: seq<real>, computeTime: real) {
    |clock| >= 1 && exists j :: 1 <= j < |clock| && clock[j] >= clock[0] + computeTime
  }

  /** The number of readings from position j on that come before the first one at or past the deadline. */
  function SweepsFrom(clock: seq<real>, deadline: real, j: nat): nat
    decreases |clock| - j
  {
    if j >= |clock| || clock[j] >= deadline then 0 else 1 + SweepsFrom(clock, deadline, j + 1)
  }

  /** The number of sweeps the loop completes when the clock reads `clock[0]`, `clock[1]`, ... */
  function Sweeps(clock: seq<real>, computeTime: real): nat
    requires |clock| >= 1
  {
    SweepsFrom(clock, clock[0] + computeTime, 1)
  }

  /** The grid g holds the step costs of w under this scan. */
  predicate CostsOf(trig: Trig, w: LaserWanderer, scan: Scan, g: seq<seq<Result<real>>>)
    requires WellShaped(w)
  {
    && Shaped(g, |w.deltas|, Horizon(w))
    && forall n, t {:trigger StepCost(trig, w, scan, n, t)} ::
         0 <= n < |w.deltas| && 0 <= t < Horizon(w) ==> g[n][t] == StepCost(trig, w, scan, n, t)
  }

  /** The inner `for traj_depth` loop for candidate n: add each of its step costs to `delta_costs[n]`. */
  method AddRowCosts(trig: Trig, w: LaserWanderer, scan: Scan, deltaCosts: array<real>, n: nat,
                     ghost g: seq<seq<Result<real>>>)
    returns (status: Result<()>)
    requires WellShaped(w) && CostsOf(trig, w, scan, g)
    requires n < |w.deltas| == deltaCosts.Length
    modifies deltaCosts
    ensures status.Success? <==> RowCost(g, n, |g[n]|).Success?
    ensures status.Failure? ==> RowCost(g, n, |g[n]|) == Failure(status.error)
    ensures forall m :: 0 <= m < deltaCosts.Length && m != n ==> deltaCosts[m] == old(deltaCosts[m])
    ensures status.Success? ==> deltaCosts[n] == old(deltaCosts[n]) + RowCost(g, n, |g[n]|).value
  {
    for t := 0 to Horizon(w)
      invariant RowCost(g, n, t).Success?
      invariant deltaCosts[n] == old(deltaCosts[n]) + RowCost(g, n, t).value
      invariant forall m :: 0 <= m < deltaCosts.Length && m != n ==> deltaCosts[m] == old(deltaCosts[m])
    {
      var cost := ComputeCost(trig, w.deltas[n], w.rollouts[n][t], scan, w.laserOffset);
      assert g[n][t] == cost by {
        assert cost == StepCost(trig, w, scan, n, t);
      }
      if cost.Failure? {
        RowFaultPersists(g, n, t + 1, |g[n]|);
        return Failure(cost.error);
      }
      deltaCosts[n] := deltaCosts[n] + cost.value;
    }
    status := Success(());
  }

  /** One pass of the `for n` loop: every candidate's step costs added once more. */
  method Sweep(trig: Trig, w: LaserWanderer, scan: Scan, deltaCosts: array<real>,
               ghost g: seq<seq<Result<real>>>, ghost k: nat)
    returns (status: Result<()>)
    requires WellShaped(w) && CostsOf(trig, w, scan, g)
    requires deltaCosts.Length == |w.deltas|
    requires Accumulated(g, k) == Success(deltaCosts[..])
    modifies deltaCosts
    ensures status.Success? ==> Accumulated(g, k + 1) == Success(deltaCosts[..])
    ensures status.Failure? ==> SweepTotals(g, |g|) == Failure(status.error)
  {
    ghost var before := deltaCosts[..];
    for n := 0 to deltaCosts.Length
      invariant forall m :: 0 <= m < n ==>
                  RowCost(g, m, |g[m]|).Success? &&
                  deltaCosts[m] == before[m] + RowCost(g, m, |g[m]|).value
      invariant forall m :: n <= m < deltaCosts.Length ==> deltaCosts[m] == before[m]
    {
      status := AddRowCosts(trig, w, scan, deltaCosts, n, g);
      if status.Failure? {
        SweepFault(g, n, |g|);
        return;
      }
    }
    AllRowsSweep(g, |g|);
    var totals := SweepTotals(g, |g|).value;
    forall m | 0 <= m < deltaCosts.Length
      ensures deltaCosts[m] == Repeated(k + 1, totals[m])
    {
      assert before[m] == if k == 0 then 0.0 else Repeated(k, totals[m]);
    }
    assert deltaCosts[..] == Scale(k + 1, totals);
    status := Success(());
  }

  /**
   * The busy loop of `wander_cb`: `delta_costs` starts at zero and every pass while the clock
   * reads before start + compute_time adds each step cost of each candidate once more.
   */
  method AccumulateCosts(trig: Trig, w: LaserWanderer, scan: Scan, clock: seq<real>,
                         ghost g: seq<seq<Result<real>>>)
    returns (deltaCosts: array<real>, status: Result<()>)
    requires WellShaped(w) && CostsOf(trig, w, scan, g)
    requires ReachesDeadline(clock, w.computeTime)
    ensures fresh(deltaCosts)
    ensures status.Success? ==> Accumulated(g, Sweeps(clock, w.computeTime)) == Success(deltaCosts[..])
    ensures status.Failure? ==> Sweeps(clock, w.computeTime) >= 1 && SweepTotals(g, |g|) == Failure(status.error)
  {
    var start := clock[0];
    var deadline := start + w.computeTime;
    deltaCosts := new real[|w.deltas|](_ => 0.0);
    ghost var k: nat := 0;
    var j := 1;
    assert deltaCosts[..] == seq(|g|, _ => 0.0);
    while clock[j] < deadline
      invariant 1 <= j < |clock|
      invariant exists i :: j <= i < |clock| && clock[i] >= deadline
      invariant Sweeps(clock, w.computeTime) == k + SweepsFrom(clock, deadline, j)
      invariant deltaCosts.Length == |w.deltas|
      invariant Accumulated(g, k) == Success(deltaCosts[..])
      decreases |clock| - j
    {
      status := Sweep(trig, w, scan, deltaCosts, g, k);
      if status.Failure? {
        return;
      }
      k := k + 1;
      j := j + 1;
    }
    status := Success(());
  }

  /**
   * `wander_cb`: accumulate the costs until the deadline, then steer with the candidate at
   * `np.argmin(delta_costs)` at the wanderer's speed.
   */
  method WanderCb(trig: Trig, w: LaserWanderer, scan: Scan, clock: seq<real>) returns (r: Result<Command>)
    requires WellShaped(w)
    requires ReachesDeadline(clock, w.computeTime)
    ensures r == Decision(w, StepCosts(trig, w, scan), Sweeps(clock, w.computeTime))
  {
    ghost var g := StepCosts(trig, w, scan);
    var deltaCosts, status := AccumulateCosts(trig, w, scan, clock, g);
    if status.Failure? {
      DecisionOnFault(w, g, Sweeps(clock, w.computeTime));
      return Failure(status.error);
    }
    if deltaCosts.Length == 0 {
      r := Failure(EmptyArgMin);
    } else {
      var chosenDelta := ArgMin(deltaCosts[..]);
      r := Success(Command(w.deltas[chosenDelta], w.speed));
    }
  }

  /** A fault in the sweep is the callback's outcome whenever at least one sweep starts. */
  lemma DecisionOnFault(w: LaserWanderer, g: seq<seq<Result<real>>>, k: nat)
    requires |g| == |w.deltas| && k >= 1
    requires SweepTotals(g, |g|).Failure?
    ensures Decision(w, g, k) == Failure(SweepTotals(g, |g|).error)
  {
  }

  /** Once a row fails at some step, every longer prefix of it fails the same way. */
  lemma {:induction false} RowFaultPersists(g: seq<seq<Result<real>>>, n: nat, t: nat, t': nat)
    requires n < |g| && t <= t' <= |g[n]|
    requires RowCost(g, n, t).Failure?
    ensures RowCost(g, n, t') == RowCost(g, n, t)
    decreases t' - t
  {
    if t < t' {
      RowFaultPersists(g, n, t, t' - 1);
    }
  }

  /** A failing row n after successful rows 0 .. n-1 is the fault of the whole sweep. */
  lemma {:induction false} SweepFault(g: seq<seq<Result<real>>>, n: nat, n': nat)
    requires n < n' <= |g|
    requires forall m :: 0 <= m < n ==> RowCost(g, m, |g[m]|).Success?
    requires RowCost(g, n, |g[n]|).Failure?
    ensures SweepTotals(g, n') == Failure(RowCost(g, n, |g[n]|).error)
    decreases n'
  {
    if n' - 1 == n {
      AllRowsSweep(g, n);
    } else {
      SweepFault(g, n, n' - 1);
    }
  }

  /** When rows 0 .. n-1 all succeed, so does the sweep over them. */
  lemma {:induction false} AllRowsSweep(g: seq<seq<Result<real>>>, n: nat)
    requires n <= |g|
    requires forall m :: 0 <= m < n ==> RowCost(g, m, |g[m]|).Success?
    ensures SweepTotals(g, n).Success?
    decreases n
  {
    if n > 0 {
      AllRowsSweep(g, n - 1);
    }
  }

  /** `np.argmin` is characterised by its contract: the first index holding the least value is unique. */
  lemma ArgMinUnique(s: seq<real>, i: nat)
    requires i < |s|
    requires forall j :: 0 <= j < |s| ==> s[i] <= s[j]
    requires forall j :: 0 <= j < i ==> s[j] > s[i]
    ensures ArgMin(s) == i
  {
  }

  /** Adding x to zero k times gives k times x. */
  lemma {:induction false} RepeatedIsProduct(k: nat, x: real)
    ensures Repeated(k, x) == (k as real) * x
  {
    if k > 0 {
      RepeatedIsProduct(k - 1, x);
    }
  }

  /** For k >= 1, adding k times keeps strict order, and so keeps the order both ways. */
  lemma RepeatedPreservesOrder(k: nat, x: real, y: real)
    requires k >= 1
    ensures x < y <==> Repeated(k, x) < Repeated(k, y)
    ensures x <= y <==> Repeated(k, x) <= Repeated(k, y)
  {
    RepeatedIsProduct(k, x);
    RepeatedIsProduct(k, y);
    var c := k as real;
    assert c * y - c * x == c * (y - x);
  }

  /** Scaling every entry by the same k >= 1 does not move `np.argmin`. */
  lemma ArgMinScale(k: nat, s: seq<real>)
    requires k >= 1 && |s| > 0
    ensures ArgMin(Scale(k, s)) == ArgMin(s)
  {
    var i := ArgMin(s);
    var t := Scale(k, s);
    forall j | 0 <= j < |s|
      ensures t[i] <= t[j]
    {
      RepeatedPreservesOrder(k, s[i], s[j]);
    }
    forall j | 0 <= j < i
      ensures t[j] > t[i]
    {
      RepeatedPreservesOrder(k, s[i], s[j]);
    }
    ArgMinUnique(t, i);
  }

  /** After k >= 1 sweeps, candidate m's accumulated cost is k times the sum of its step costs. */
  lemma AccumulatedIsMultiple(g: seq<seq<Result<real>>>, k: nat, m: nat)
    requires m < |g| && k >= 1
    requires Accumulated(g, k).Success?
    ensures RowCost(g, m, |g[m]|).Success?
    ensures Accumulated(g, k).value[m] == (k as real) * RowCost(g, m, |g[m]|).value
  {
    RepeatedIsProduct(k, SweepTotals(g, |g|).value[m]);
  }

  /** With defined costs non-negative, one more sweep never lowers any accumulated cost. */
  lemma AccumulatedGrows(g: seq<seq<Result<real>>>, k: nat, m: nat)
    requires NonNegative(g) && m < |g|
    requires Accumulated(g, k + 1).Success?
    ensures Accumulated(g, k).Success?
    ensures |Accumulated(g, k + 1).value| == |g|
    ensures Accumulated(g, k).value[m] <= Accumulated(g, k + 1).value[m]
  {
    var totals := SweepTotals(g, |g|).value;
    assert RowCost(g, m, |g[m]|) == Success(totals[m]);
    assert totals[m] >= 0.0;
    assert Accumulated(g, k + 1).value[m] == Repeated(k, totals[m]) + totals[m];
    if k > 0 {
      assert Accumulated(g, k).value[m] == Repeated(k, totals[m]);
    }
  }

  /** A row's running total never drops as more of its non-negative step costs are added. */
  lemma {:induction false} RowCostGrows(g: seq<seq<Result<real>>>, n: nat, t: nat, t': nat)
    requires NonNegative(g) && n < |g| && t <= t' <= |g[n]|
    requires RowCost(g, n, t').Success?
    ensures RowCost(g, n, t).Success?
    ensures RowCost(g, n, t).value <= RowCost(g, n, t').value
    decreases t' - t
  {
    if t < t' {
      RowCostGrows(g, n, t, t' - 1);
      assert g[n][t' - 1].Success? && g[n][t' - 1].value >= 0.0;
    }
  }

  /** After k >= 1 sweeps without fault, the command steers with the arg-min of the row totals. */
  lemma DecisionAfterSweeps(w: LaserWanderer, g: seq<seq<Result<real>>>, k: nat)
    requires |g| == |w.deltas| >= 1 && k >= 1
    requires SweepTotals(g, |g|).Success?
    ensures Decision(w, g, k) == Success(Command(w.deltas[ArgMin(SweepTotals(g, |g|).value)], w.speed))
  {
    var totals := SweepTotals(g, |g|).value;
    ArgMinScale(k, totals);
    assert Accumulated(g, k) == Success(Scale(k, totals));
    assert Chosen(g, k) == Success(ArgMin(totals));
  }

  /** After any positive number of sweeps the command steers with the arg-min of the single-sweep totals. */
  lemma DecisionSweepInvariant(w: LaserWanderer, g: seq<seq<Result<real>>>, k: nat)
    requires |g| == |w.deltas| && k >= 1
    ensures Decision(w, g, k) == Decision(w, g, 1)
    ensures SweepTotals(g, |g|).Success? && |g| >= 1 ==>
              Decision(w, g, k) == Success(Command(w.deltas[ArgMin(SweepTotals(g, |g|).value)], w.speed))
  {
    if SweepTotals(g, |g|).Success? && |g| >= 1 {
      DecisionAfterSweeps(w, g, k);
      DecisionAfterSweeps(w, g, 1);
    }
  }

  /** When the deadline has passed before the first sweep, every total is zero and candidate 0 is chosen. */
  lemma DecisionWithoutSweeps(w: LaserWanderer, g: seq<seq<Result<real>>>)
    requires |g| == |w.deltas| >= 1
    ensures Decision(w, g, 0) == Success(Command(w.deltas[0], w.speed))
  {
    var zeros := seq(|g|, _ => 0.0);
    ArgMinUnique(zeros, 0);
  }

  /** The callback fails exactly when there is no candidate, or a sweep runs and meets a fault. */
  lemma DecisionFails(w: LaserWanderer, g: seq<seq<Result<real>>>, k: nat)
    requires |g| == |w.deltas|
    ensures Decision(w, g, k).Failure? <==> |g| == 0 || (k >= 1 && SweepTotals(g, |g|).Failure?)
  {
  }

  /** The readings 1 .. Sweeps are before the deadline and the next one is at or past it. */
  lemma {:induction false} SweepsFromCounts(clock: seq<real>, deadline: real, j: nat)
    requires 1 <= j
    requires exists i :: j <= i < |clock| && clock[i] >= deadline
    ensures j + SweepsFrom(clock, deadline, j) < |clock|
    ensures forall i :: j <= i < j + SweepsFrom(clock, deadline, j) ==> clock[i] < deadline
    ensures clock[j + SweepsFrom(clock, deadline, j)] >= deadline
    decreases |clock| - j
  {
    if clock[j] < deadline {
      var i :| j <= i < |clock| && clock[i] >= deadline;
      assert i != j;
      SweepsFromCounts(clock, deadline, j + 1);
    }
  }

  /** `wander_cb` sweeps once for every reading after the start that is before start + compute_time. */
  lemma SweepsCounts(clock: seq<real>, computeTime: real)
    requires ReachesDeadline(clock, computeTime)
    ensures 1 + Sweeps(clock, computeTime) < |clock|
    ensures forall i :: 1 <= i <= Sweeps(clock, computeTime) ==> clock[i] < clock[0] + computeTime
    ensures clock[1 + Sweeps(clock, computeTime)] >= clock[0] + computeTime
  {
    SweepsFromCounts(clock, clock[0] + computeTime, 1);
  }
}
