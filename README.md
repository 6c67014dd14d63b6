# Laser wanderer model

This project models the planning core of the laser wanderer of `lab1`.

- **Rollouts.** A fixed set of constant-steering rollouts is generated offline. Each one applies the kinematic bicycle model repeatedly from the origin.
- **Per-scan choice.** On each laser scan the wanderer gives every step of every rollout a cost:
  - the steering effort;
  - a large penalty for each of three adjacent laser rays that the pose reaches past.
- **Accumulation.** It adds these costs into one total per candidate, in repeated sweeps, until the compute-time budget is spent.
- **Command.** It steers with the first candidate of least total, at the configured speed.

The model has five modules, one file each:

- `faults.dfy` (`Faults`): the exceptions the core can raise, and a `Result` type that carries them:
  - `ZeroDivision`: Python float division by zero;
  - `IndexError`: an out-of-range list or array index;
  - `EmptyArgMin`: `np.argmin` of an empty array.
- `kinematics.dfy` (`Kinematics`):
  - `kinematic_model_step`, with its straight and arc branches and its two heading-wrap `while` loops;
  - the trigonometric functions are uninterpreted and passed in as a `Trig` record.
- `rollouts.dfy` (`Rollouts`):
  - `np.arange` on reals;
  - `generate_rollout`, a `for` loop writing into a zero-filled array;
  - `generate_mpc_rollouts`, which fills an N×T `array2` row by row.
- `laser_cost.dfy` (`LaserCost`):
  - `compute_cost`, with Python 2 `round`;
  - Python list indexing, where index −1 wraps and the index one past the end raises `IndexError`;
  - the three penalty tests and the final division by 3.
- `wanderer.dfy` (`Wandering`):
  - the accumulate and arg-min part of `wander_cb`, as methods over an `array<real>` of `delta_costs`;
  - a specification of those methods, built from functions on an abstract grid of step costs.

### How the model relates to the code

The model follows what the code does, also where the code's own comments suggest otherwise. For example, the comment at line 94 speaks of a distance, while line 111 computes the squared distance x² + y².

- **The division by 3 covers the whole cost.** The steering term |δ| is divided as well as the penalties. A step cost is therefore (|δ| + k·10000)/3, where k ∈ {0, 1, 2, 3} is the number of penalised rays.
- **Headings are wrapped into [2π, 4π), not [0, 2π).** The first loop runs while θ + Δθ > 2π and the second while θ + Δθ < 2π. So a heading ends in [2π, 4π). For example, a pose at the origin with no turn gets heading exactly 2π.
- **`generate_rollout` ignores `init_pose`.** It always starts from [0, 0, 0].
- **Ray indices are neither clamped nor checked for NaN ranges.** Index −1 reads the last ray. Index `len` raises `IndexError`.
- **`np.arange` accepts a negative increment.** The candidates then decrease towards `max_delta`.
- **The wall clock is modelled as the sequence of values it returns.** The busy loop completes one sweep for every reading after the start that comes before the first reading at or past start + compute_time. For a clock that never goes backwards, these are exactly the readings before start + compute_time.

## Model

| member | source | states |
|---|---|---|
| Kinematics.IsStraight | lab1/src/laser_wanderer.py:169 | definition: the straight branch is taken when abs(δ) < 0.01 |
| Kinematics.SinTwoBeta | lab1/src/laser_wanderer.py:174-175 | definition: β = arctan(½ tan δ) and the result is sin 2β |
| Kinematics.RawMotion | lab1/src/laser_wanderer.py:169-178 | definition: for abs(δ) < 0.01, dx = v·cos θ·dt, dy = v·sin θ·dt and Δθ = 0; otherwise β = arctan(½ tan δ), Δθ = (v/L)·sin 2β·dt, and dx, dy follow the arc of radius L/sin 2β |
| Kinematics.Abs | lab1/src/laser_wanderer.py:169 | `np.abs`: the result is non-negative and equals r or −r |
| Kinematics.LowerHeadingChange | lab1/src/laser_wanderer.py:180-181 | the first wrap loop ends with θ + Δθ ≤ 2π, and does nothing when that already holds |
| Kinematics.RaiseHeadingChange | lab1/src/laser_wanderer.py:183-184 | the second wrap loop ends with θ + Δθ ≥ 2π, does nothing when that already holds, and ends below 4π when it runs |
| Kinematics.WrapHeadingChange | lab1/src/laser_wanderer.py:180-184 | after both loops the new heading lies in [2π, 4π) |
| Kinematics.Step | lab1/src/laser_wanderer.py:165-186 | the returned heading lies in [2π, 4π) |
| Kinematics.KinematicModelStep | lab1/src/laser_wanderer.py:165-186 | the two while loops terminate; x and y gain exactly the branch's dx and dy; the heading lands in [2π, 4π); the pose equals `Step` |
| Kinematics.LowerByWholeTurns | lab1/src/laser_wanderer.py:180-181 | the first loop changes Δθ only by a whole number k ≥ 0 of subtracted turns |
| Kinematics.RaiseByWholeTurns | lab1/src/laser_wanderer.py:183-184 | the second loop changes Δθ only by a whole number k ≥ 0 of added turns |
| Kinematics.StepHeadingByWholeTurns | lab1/src/laser_wanderer.py:176-186 | the returned heading is θ plus the raw Δθ plus an integer multiple of 2π |
| Kinematics.WrapKeepsCanonicalHeading | lab1/src/laser_wanderer.py:180-184 | a heading already in [2π, 4π) with no change is left as it is |
| Kinematics.WrapFromZero | lab1/src/laser_wanderer.py:180-184 | heading 0 with no change is wrapped to exactly 2π |
| Kinematics.StraightBranch | lab1/src/laser_wanderer.py:169-172 | for abs(δ) < 0.01 the pre-wrap heading change Δθ is 0, and the car moves the distance v·dt (given sin² + cos² = 1) |
| Kinematics.ArcBranchTurns | lab1/src/laser_wanderer.py:173-178 | on the arc branch the pre-wrap heading change Δθ is non-zero if and only if v ≠ 0 and dt ≠ 0 |
| Rollouts.Ceil | lab1/src/laser_wanderer.py:223 | the ceiling: x ≤ ⌈x⌉ < x + 1 |
| Rollouts.ArangeLength | lab1/src/laser_wanderer.py:223-224 | definition: N = max(0, ⌈(max − min)/incr⌉), the length `np.arange` gives |
| Rollouts.Arange | lab1/src/laser_wanderer.py:223-224 | `np.arange` has max(0, ⌈(stop − start)/step⌉) entries, and entry i is start + i·step |
| Rollouts.ArangeIncreasing | lab1/src/laser_wanderer.py:223-224 | for a positive increment every candidate is below `max_delta`, and the next one would not be, so N is exact |
| Rollouts.ArangeDecreasing | lab1/src/laser_wanderer.py:223-224 | for a negative increment every candidate is above `max_delta`, and the next one would not be |
| Rollouts.ArangeEmpty | lab1/src/laser_wanderer.py:223-224 | a positive increment with max ≤ min gives N = 0 candidates |
| Rollouts.Rollout | lab1/src/laser_wanderer.py:195-206 | the trajectory has exactly one pose per control row |
| Rollouts.RolloutPrefix | lab1/src/laser_wanderer.py:202-204 | the rollout of the first k controls is the first k poses of the rollout |
| Rollouts.RolloutStart | lab1/src/laser_wanderer.py:198-203 | row 0 is one step from [0, 0, 0] under control 0 |
| Rollouts.RolloutRecurrence | lab1/src/laser_wanderer.py:202-204 | row i is one step from row i − 1 under control i |
| Rollouts.RolloutHeadings | lab1/src/laser_wanderer.py:195-206 | every heading of a rollout lies in [2π, 4π) |
| Rollouts.GenerateRollout | lab1/src/laser_wanderer.py:195-206 | `generate_rollout`: the result has T rows; the first len(controls) rows are the rollout from the origin, whatever `init_pose` is; the remaining rows stay zero; a control row past T − 1 raises `IndexError` |
| Rollouts.ConstantControls | lab1/src/laser_wanderer.py:231-234 | T rows, each equal to [speed, δ, dt] |
| Rollouts.CandidateRollout | lab1/src/laser_wanderer.py:230-235 | the rollout of one candidate has exactly T poses |
| Rollouts.GenerateMpcRollouts | lab1/src/laser_wanderer.py:221-237 | `deltas` is `np.arange(min, max, incr)`; the table is N×T; row i is the T-step rollout under (speed, deltas[i], dt) |
| Rollouts.SetRow | lab1/src/laser_wanderer.py:235 | the slice assignment `rollouts[i,:,:] = ...` writes row i and changes no other row |
| Rollouts.CandidateRolloutStart | lab1/src/laser_wanderer.py:226-235 | the first pose of each candidate row is one step from the origin |
| LaserCost.Round | lab1/src/laser_wanderer.py:107 | definition: Python 2 `round`, ⌊x + ½⌋ for x ≥ 0 and −⌊−x + ½⌋ below; its properties are in `RoundNearest`, `RoundOdd` and `RoundHalfAwayFromZero` |
| LaserCost.RoundNearest | lab1/src/laser_wanderer.py:107 | Python 2 `round` lies within ½ of its argument; it is ≥ 0 for x ≥ 0 and ≤ 0 for x ≤ 0 |
| LaserCost.RoundOdd | lab1/src/laser_wanderer.py:107 | `round(−x) = −round(x)`: rounding is symmetric about zero |
| LaserCost.RoundHalfAwayFromZero | lab1/src/laser_wanderer.py:107 | Python 2 tie rule: n + ½ rounds to n + 1 and −n − ½ to −(n + 1), away from zero |
| LaserCost.PyIndex | lab1/src/laser_wanderer.py:107-109 | a list read succeeds if and only if −len ≤ i < len; otherwise it raises `IndexError` |
| LaserCost.RayIndex | lab1/src/laser_wanderer.py:105-107 | the ray index is defined if and only if `angle_increment` ≠ 0; otherwise the division raises `ZeroDivisionError` |
| LaserCost.SampledRays | lab1/src/laser_wanderer.py:107-109 | exactly three rays are read |
| LaserCost.PoseDistance | lab1/src/laser_wanderer.py:111 | definition: x² + y², the quantity compared with each range |
| LaserCost.Penalised | lab1/src/laser_wanderer.py:113-118 | definition: a ray penalises the pose when x² + y² exceeds its range minus abs(laser_offset) |
| LaserCost.Penalty | lab1/src/laser_wanderer.py:113-118 | definition: one conditional `cost = cost + MAX_PENALTY`, which adds MAX_PENALTY when the ray penalises the pose and 0 otherwise |
| LaserCost.PenaltyCount | lab1/src/laser_wanderer.py:113-118 | the count k ≤ 3; k = 0 exactly when no ray penalises; k = 3 exactly when all do |
| LaserCost.Cost | lab1/src/laser_wanderer.py:88-122 | a defined step cost is non-negative |
| LaserCost.CostFormula | lab1/src/laser_wanderer.py:103-120 | the cost is defined exactly when the three reads succeed; it equals (abs(δ) + k·MAX_PENALTY)/3 for the number k of penalised rays; it lies between abs(δ)/3 and (abs(δ) + 30000)/3 |
| LaserCost.ComputeCost | lab1/src/laser_wanderer.py:88-122 | `compute_cost`'s step-by-step updates of `cost` give `Cost`, including its faults |
| LaserCost.CostIgnoresSteeringSign | lab1/src/laser_wanderer.py:103 | the cost of −δ equals the cost of δ |
| LaserCost.CostDefinedIff | lab1/src/laser_wanderer.py:105-109 | the cost is defined if and only if the increment is non-zero and −len + 1 ≤ idx ≤ len − 2 |
| LaserCost.SampledRaysInside | lab1/src/laser_wanderer.py:107-109 | inside the scan, the reads are ranges[idx], ranges[idx+1] and ranges[idx−1] |
| LaserCost.SampledRaysWrapAtZero | lab1/src/laser_wanderer.py:109 | at idx = 0 the third read is the last ray of the scan |
| LaserCost.SampledRaysPastEnd | lab1/src/laser_wanderer.py:108 | at idx = len − 1 the read at idx + 1 raises `IndexError` |
| LaserCost.ClearPathCost | lab1/src/laser_wanderer.py:103-120 | with no ray penalised, the cost is abs(δ)/3 |
| LaserCost.BlockedPathCost | lab1/src/laser_wanderer.py:103-120 | with all three rays penalised, the cost is (abs(δ) + 30000)/3 |
| Wandering.Horizon | lab1/src/laser_wanderer.py:143 | definition: `self.rollouts.shape[1]`, the length of the first rollout row, or 0 when there is none |
| Wandering.StepCost | lab1/src/laser_wanderer.py:144 | definition: the call `compute_cost(deltas[n], rollouts[n,t,:], msg)` |
| Wandering.StepCosts | lab1/src/laser_wanderer.py:142-144 | the grid of step costs is N×T; entry (n, t) is `compute_cost(deltas[n], rollouts[n,t], msg)`; every defined entry is ≥ 0 |
| Wandering.RowCost | lab1/src/laser_wanderer.py:143-144 | when a row's running sum is defined, every step before it was defined; the sum is ≥ 0 when the costs are |
| Wandering.SweepTotals | lab1/src/laser_wanderer.py:142-144 | one sweep gives the full-row sum of every candidate, in candidate order |
| Wandering.Accumulated | lab1/src/laser_wanderer.py:134-144 | after k sweeps `delta_costs` still has N entries |
| Wandering.ArgMin | lab1/src/laser_wanderer.py:147 | `np.argmin` gives an index of the least value, and every earlier entry is strictly greater |
| Wandering.Chosen | lab1/src/laser_wanderer.py:147 | the chosen index is a candidate index |
| Wandering.Decision | lab1/src/laser_wanderer.py:147-154 | a command exists exactly when an index is chosen; it steers with `deltas[chosen]` at `speed` |
| Wandering.AddRowCosts | lab1/src/laser_wanderer.py:143-144 | the inner loop adds row n's step costs to `delta_costs[n]` and touches no other entry; a fault in the row is raised as it is |
| Wandering.Sweep | lab1/src/laser_wanderer.py:142-144 | one pass over n turns the totals after k sweeps into the totals after k + 1, or raises the sweep's first fault |
| Wandering.AccumulateCosts | lab1/src/laser_wanderer.py:130-144 | the busy loop leaves `delta_costs` as the totals after `Sweeps(clock)` sweeps, or raises a fault met in a sweep that started |
| Wandering.WanderCb | lab1/src/laser_wanderer.py:129-154 | `wander_cb` publishes `Decision` for the step costs of this scan and the number of sweeps the clock allows |
| Wandering.DecisionOnFault | lab1/src/laser_wanderer.py:141-147 | once at least one sweep runs, a fault in the sweep is the callback's outcome |
| Wandering.RowFaultPersists | lab1/src/laser_wanderer.py:143-144 | a fault at some step of a row is the fault of every longer prefix of that row |
| Wandering.SweepFault | lab1/src/laser_wanderer.py:142-144 | the first failing row, in sweep order, gives the sweep's fault |
| Wandering.AllRowsSweep | lab1/src/laser_wanderer.py:142-144 | if every row succeeds, the sweep succeeds |
| Wandering.ArgMinUnique | lab1/src/laser_wanderer.py:147 | the first index of the least value is unique: any such index is `ArgMin` |
| Wandering.RepeatedIsProduct | lab1/src/laser_wanderer.py:141-144 | adding x in k sweeps gives k·x |
| Wandering.RepeatedPreservesOrder | lab1/src/laser_wanderer.py:141-147 | for k ≥ 1, k sweeps keep the order of two totals, both strict and non-strict, in both directions |
| Wandering.ArgMinScale | lab1/src/laser_wanderer.py:141-147 | multiplying every total by the same k ≥ 1 does not change the arg-min |
| Wandering.AccumulatedIsMultiple | lab1/src/laser_wanderer.py:141-144 | after k ≥ 1 sweeps, `delta_costs[m]` is k times the sum of row m's step costs |
| Wandering.AccumulatedGrows | lab1/src/laser_wanderer.py:141-144 | one more sweep never lowers any entry of `delta_costs` |
| Wandering.RowCostGrows | lab1/src/laser_wanderer.py:143-144 | a row's running sum never decreases along the row |
| Wandering.DecisionAfterSweeps | lab1/src/laser_wanderer.py:141-154 | after k ≥ 1 sweeps without a fault, `wander_cb` steers with `deltas[ArgMin(t)]` at `speed`, where t are the single-sweep row totals |
| Wandering.DecisionSweepInvariant | lab1/src/laser_wanderer.py:141-154 | the command is the same after every number of sweeps k ≥ 1; it steers with `deltas[ArgMin(t)]` for the single-sweep row totals t |
| Wandering.DecisionWithoutSweeps | lab1/src/laser_wanderer.py:134-154 | when no sweep runs, all totals are zero and candidate 0 is chosen (for N ≥ 1) |
| Wandering.DecisionFails | lab1/src/laser_wanderer.py:134-147 | the callback fails exactly when N = 0, or when a sweep runs and meets a fault |
| Wandering.SweepsFrom | lab1/src/laser_wanderer.py:141 | definition: the number of readings from position j on that come before the first one at or past the deadline |
| Wandering.Sweeps | lab1/src/laser_wanderer.py:130-141 | definition: the number of times the loop test at line 141 passes before it fails, for the deadline start + compute_time; its properties are in `SweepsCounts` |
| Wandering.SweepsFromCounts | lab1/src/laser_wanderer.py:141 | from reading j on, the count is the number of readings before the first one at or past the deadline |
| Wandering.SweepsCounts | lab1/src/laser_wanderer.py:130-141 | readings 1 … Sweeps are before start + compute_time, and the next reading is not |

## Left out

- ROS plumbing is not modelled: node setup, publishers, subscribers, message headers, timestamps and `publish` (lines 41-54, 150-157, 239-271). The constructor only stores its parameters, so `LaserWanderer` is a datatype of them.
- `viz_sub_cb` (lines 61-78) is not modelled. It only publishes the last pose of each rollout for display, and `utils.angle_to_quaternion` is not part of this model.
- `main` (lines 239-275) is not modelled. It reads launch parameters and wires the callback. `GenerateMpcRollouts` returns arrays while `LaserWanderer` holds sequences, and the conversion between them is not modelled.
- All numeric parameters are assumed to be floats. If `min_delta`, `max_delta` and `delta_inc` were all integers, `np.arange` would give integer `deltas`. Then `cost / 3` at line 120 would floor-divide under Python 2, and that is not modelled.
- Floating point is modelled on reals, so float rounding, `inf` and `NaN` are not captured. A NaN range compares false and would never be penalised. `int(round(...))` of an infinite value is not modelled.
- The trigonometric functions are uninterpreted. `StraightBranch` assumes only sin² + cos² = 1.
- Kinematics.KinematicModelStep: requires `Integrable`: on the arc branch the car length is non-zero and sin 2β ≠ 0, and the straight branch needs neither. These are the two divisors of lines 176-177. Under numpy float semantics, dividing by zero there gives `inf`/`nan` rather than an exception. With car length 0 and v·dt·sin 2β ≠ 0, Δθ is ±inf. The program then loops forever, in the loop at line 180 for +inf or the loop at line 183 for −inf, because inf ∓ 2π = inf.
- Kinematics.KinematicModelStep: on reals both wrap loops terminate. With floats, a heading so large that subtracting 2π no longer changes it would loop forever, and this is not captured.
- Rollouts.GenerateRollout: requires every control to be integrable, for the same reason as `KinematicModelStep`.
- Rollouts.GenerateMpcRollouts: requires `delta_incr` ≠ 0, and the error numpy raises for a zero step is not modelled. It also requires `CandidatesIntegrable`: every candidate angle must be `Integrable`, for the same reason as `KinematicModelStep`.
- Rollouts.Arange: the float length computation of `np.arange` is modelled exactly on reals, so an off-by-one from rounding near `max_delta` is not captured.
- Wandering.WanderCb, Wandering.AccumulateCosts, Wandering.Sweep, Wandering.AddRowCosts: require `WellShaped`, meaning a rectangular rollout table with at least as many rows as candidates. A numpy array is always rectangular, and every row index used is below N, so the source never reaches an `IndexError` here under that shape.
- Wandering.WanderCb, Wandering.AccumulateCosts: require the clock to reach the deadline at some reading. A clock that never does makes the source's busy loop run forever.
- Wandering.WanderCb: the clock readings are a parameter. The model does not tie the number of sweeps to how long a sweep actually takes.
- The initial `traj_depth = 0` on line 135 has no effect, because the inner loop rebinds it, so it is not modelled.
