# Charged particle in a parallel-plate capacitor, in Dafny

This project models the computational core of `condensator.py`: a script that
computes where a charged particle entering a parallel-plate capacitor strikes
a plate, once for a positive and once for a negative charge. It covers:

- `kinematics.dfy` (module `Kinematics`): the horizontal position
  `x(t) = V_0*t`, the vertical position `y(t) = (-g - q*U/(m*d))*t²/2`, and the
  collision time `collision_time()`. The program's module globals
  (`V_0`, `q`, `m`, `U`, `d`, `g`) become the fields of a `Params` value.
  Everything is over `real`. Dafny has no square root, so a defined
  collision time is `Time(square)`, which stands for the unique `t > 0` with
  `t*t == square`. That value is `d*sqrt(m)/sqrt(radicand)`, and
  `square == d*d*m/radicand`. A zero radicand, where numpy would produce
  `inf`, gives the explicit outcome `DivisionByZero`. A negative radicand,
  where numpy would produce `NaN`, gives `SqrtOfNegative`.
- `input.dfy` (module `Input`): the validators `positive_check` and
  `non_zero_check`, the decision `enter_func` makes on one typed line, and
  its retry loop. Python's `float()` is a parameter
  (`Parser = string -> Option<Float>`), where `Float` is a finite number,
  an infinity or NaN.
- `scenario.dfy` (module `Scenario`): the defaults and the five prompts.
  It also covers the set-up of lines 118-137: velocity × 1000, `q := |q|`,
  plates at `±d/2`, then a positive-charge run and a negative-charge run.
  The program gets its two runs by overwriting the global `q`. Here they are
  two `Params` values derived from one set of entered values.

The physically natural rule for `collision_time` is to choose the branch by
the sign of the net force term `d*g*m + q*U`. The code (condensator.py:52)
chooses by the sign of `q` alone, and the model follows the code in
`Kinematics.CollisionTime`. The net-force rule is
`Kinematics.NetForceCollisionTime`, and two lemmas relate the two rules. They agree wherever the code's formula is defined. They
differ for a negative charge whose net force still points to the negative
plate, where the code takes the square root of a negative number.

`collision_time` requires `m > 0` and `d > 0`. In the model these always hold
for the values the prompts return, because the input loop uses the corrected
decision, which accepts only finite values that pass `positive_check`. In the
program as written they are not guaranteed. `nan` passes `positive_check`
(see Findings), and `m > 0` is false for NaN. `q`, `U` and `g` are
unconstrained, so all three negative-charge outcomes can happen.

## Model

| member | source | states |
|---|---|---|
| Kinematics.XLinear | condensator.py:43-44 | x(0) = 0 and x(t1+t2) = x(t1)+x(t2): horizontal motion is linear in t |
| Kinematics.XStrictlyIncreasing | condensator.py:43-44 | for V_0 > 0, t1 < t2 implies x(t1) < x(t2) |
| Kinematics.YAtZero | condensator.py:47-48 | y(0) = 0: the particle enters midway between the plates |
| Kinematics.YByNetForce | condensator.py:47-48 | y(t) = -(d*g*m + q*U)/(m*d) * t²/2: the vertical acceleration is the net force term over m*d |
| Kinematics.NetForcePositive | condensator.py:52 | for q > 0, g >= 0 and U, m, d > 0 the net force term d*g*m + q*U is positive |
| Kinematics.PositiveChargeBelowEntry | condensator.py:47-48 | for q > 0, g >= 0 and U, m, d > 0, y(t) <= 0 for every t: the charge does not rise towards the positive plate |
| Kinematics.PositiveChargeDrifts | condensator.py:47-48 | for a positive charge, 0 <= t1 <= t2 implies y(t2) <= y(t1): the downward deflection only grows |
| Kinematics.Quotient | condensator.py:52 | d*sqrt(m)/sqrt(r) is defined exactly when r > 0, divides by zero exactly when r = 0, and its square times r is d*d*m |
| Kinematics.CollisionTime | condensator.py:51-52 | the branch is chosen by the sign of q; the result is defined exactly when the net force has the sign the branch assumes (q > 0: positive; q <= 0: negative), and it is then positive |
| Kinematics.PositiveChargeCollides | condensator.py:52 | for q > 0, g >= 0 and U, m, d > 0 the first radicand is positive, so the collision time is defined, with tc² = d*d*m/(d*g*m + q*U) |
| Kinematics.NegativeChargeCases | condensator.py:52 | for q < 0: defined iff q*U < -d*g*m, division by zero iff q*U = -d*g*m, square root of a negative iff q*U > -d*g*m; when defined, tc² = d*d*m/(-d*g*m - q*U) |
| Kinematics.TimeIsUnique | condensator.py:52 | at most one positive t has the computed square, so the collision time is well defined |
| Kinematics.CollisionOnPlate | condensator.py:47-52 | at the collision time y is exactly -d/2 for a positive charge and exactly d/2 for a negative charge |
| Kinematics.PathBetweenPlates | condensator.py:59-62 | every point of the sampled path t in [0, tc] lies between the plates, on the side of the plate that is hit |
| Kinematics.NetForceCollisionTime | condensator.py:52 | the net-force rule, with the branch chosen by the sign of the net force: defined exactly when the net force is non-zero |
| Kinematics.CollisionTimeAgrees | condensator.py:52 | wherever the code's formula is defined it equals the net-force rule |
| Kinematics.GravityDominatedNegativeCharge | condensator.py:52 | for q < 0 with d*g*m + q*U > 0 the code takes the square root of a negative number while the net-force rule collides |
| Input.PositiveCheck | condensator.py:100-103 | unparseable input is rejected; an accepted result is exactly the parsed value; a finite value is accepted iff it is > 0 |
| Input.NonZeroCheck | condensator.py:106-109 | unparseable input is rejected; an accepted result is exactly the parsed value; a finite value is accepted iff it is != 0 |
| Input.ApplyCheck | condensator.py:84 | whichever check_func is used (float, positive_check, non_zero_check), an accepted result is the parsed value |
| Input.ContainsIff | condensator.py:91 | the substring test holds exactly when the pattern occurs at some position |
| Input.Attempt | condensator.py:87-94 | "def" yields the default; any other accepted line does not contain "inf" and yields its parsed value; without "inf", the line is accepted iff check_func succeeds |
| Input.DefaultIsNotValidated | condensator.py:87-89 | "def" returns the default even when the check would refuse it, because it is tested before anything else |
| Input.InfIsRejected | condensator.py:91-92 | any line other than "def" that contains "inf" is rejected, whatever the check |
| Input.FiniteDecision | condensator.py:90-94 | a line that parses to a finite number is accepted iff the check admits it, and the accepted value is that number |
| Input.CapitalisedInfinityAccepted | condensator.py:91-93 | as written, "Inf" (parsed by float() as +infinity) is accepted by both positive_check and non_zero_check |
| Input.NaNAccepted | condensator.py:100-109 | as written, "nan" is accepted by both positive_check and non_zero_check |
| Input.AttemptFinite | condensator.py:87-94 | corrected attempt: every accepted value is finite; one typed by the user is its parsed value and admitted by the check |
| Input.AttemptFiniteAgrees | condensator.py:87-94 | by definition of the corrected attempt, it accepts x iff the program's attempt accepts x and x is finite; this is the link between the as-written and the corrected decision |
| Input.FirstAcceptAsWritten | condensator.py:84-97 | the program's retry loop over the decision as written: the first accepted line's value (possibly inf or NaN) and the number of lines read, every earlier line rejected; nothing only when every line is rejected |
| Input.FirstAccept | condensator.py:84-97 | the corrected retry loop as a function, over the corrected decision: the first accepted line's value and the number of lines read, every earlier line rejected; nothing only when every line is rejected; the value is the default or admitted by the check |
| Input.FirstAcceptAgrees | condensator.py:84-97 | when no line is accepted with a non-finite value, the program's loop and the corrected loop read the same number of lines and return the same value |
| Input.CapitalisedInfinityReturned | condensator.py:91-93 | as written, the lines "Inf", "def" make the loop return +inf after one line; the corrected loop returns the default after two |
| Input.NaNReturned | condensator.py:100-109 | as written, the line "nan" makes the loop return NaN; the corrected loop accepts nothing from it |
| Input.EnterValue | condensator.py:84-97 | the loop returns exactly FirstAccept's value and line count: it accepts the first accepted line after rejecting every earlier one, and returns nothing only when every line was rejected |
| Scenario.Defaults | condensator.py:9-13 | the defaults (6e9, 1e-6, 9.1e-31, 220, 10) satisfy every check |
| Scenario.Abs | condensator.py:119 | abs returns x or -x, and never a negative value |
| Scenario.Derive | condensator.py:118-137 | V_0 = 1000 × the entered velocity; the stored q is the magnitude of the entered charge, positive when that charge is non-zero; m, U, d unchanged, g = 9.81; the second run is the first with q negated; the plates are d apart with negative_plate = -positive_plate = -d/2 |
| Scenario.PositiveRunHitsNegativePlate | condensator.py:129-133 | for validated input the positive run always has a collision time, and at it the particle is on negative_plate_coord |
| Scenario.NegativeRunOutcome | condensator.py:129-137 | for validated input the negative run collides iff abs(q)*U > d*g*m, divides by zero iff equal, takes the square root of a negative iff less; at a collision the particle is on positive_plate_coord |
| Scenario.DefaultRunsCollide | condensator.py:9-13 | with every default, both runs have a defined collision time |
| Scenario.Parameters | condensator.py:118-122 | the five prompts in order (velocity, charge, mass, voltage, separation), each with its default and check, each reading on after the line the previous one accepted; whatever they accept satisfies Valid (v0, m, U, d > 0, q != 0) |
| Scenario.AllDefaults | condensator.py:118-122 | answering the first five prompts with "def" yields exactly the five defaults, whatever lines follow |
| Scenario.RejectedLineSkipped | condensator.py:84-97 | a first line the velocity prompt rejects is skipped: the result is that of the remaining lines |
| Scenario.EnterParameters | condensator.py:118-122 | the five prompts read exactly the values Parameters describes from the typed lines, and these satisfy Valid |

## Left out

- Plotting and rendering are not modelled: `add_arrow`, `add_mark`, the matplotlib body of `create_plot`, `savefig` and the unused font properties (condensator.py:16-40, 55-81, 128). They are library calls. The path they draw is covered only by `Kinematics.PathBetweenPlates`.
- `np.linspace` sampling (condensator.py:60, 65) is a numpy call. The model states only that every sample time in `[0, tc]` gives a point between the plates.
- Console I/O is not modelled: `input`, `print`, the prompts, and the `try`/`except` that prints a message and calls `exit(0)` (condensator.py:86, 96, 112-116, 124, 138-143). The typed lines are a `seq<string>` parameter. Running out of them gives `None`, where `input()` would raise at end of file.
- Python's `float()` parsing is an abstract `Parser` parameter. The model does not re-implement the float literal grammar.
- IEEE rounding is not modelled, and neither are the `inf`/`NaN` values numpy produces for `/0` and `sqrt` of a negative. The model works over `real`, and those two cases become the outcomes `DivisionByZero` and `SqrtOfNegative`. What matplotlib then does with such values, possibly raising into the `except` at line 138, is not modelled.
- Kinematics.CollisionTime: requires `m > 0 && d > 0`. The source does not check these. They hold for the finite values the corrected `Input.EnterValue` returns at lines 120 and 122; `positive_check` alone does not guarantee them for NaN.
- Kinematics.PositiveChargeBelowEntry: states `y(t) <= 0`, not the strict `y(t) < 0` for `t != 0`.
- Input.FirstAccept: runs the corrected decision `Input.AttemptFinite`, so it skips the "Inf"/"nan" lines the program's loop accepts. The loop as written is `Input.FirstAcceptAsWritten`, and `Input.FirstAcceptAgrees` shows the two agree when no line is accepted with a non-finite value.
- Scenario.Parameters: chains the corrected `Input.FirstAccept`, so its `Valid` ensures holds for the corrected program only. The program as written accepts "nan" and "Inf" at every prompt (see Findings). These are not real numbers, and for NaN the program's own `m > 0` is false.
- Scenario.EnterParameters: is proved equal to `Scenario.Parameters`, so it reads the prompts with the corrected decision, and its `Valid` ensures holds for the corrected program only.
- Input.EnterValue: uses the corrected decision `Input.AttemptFinite`, which refuses infinities and NaN (see Findings). Because of this, the values that reach the real-valued kinematics are finite.

## Findings

| source | as written | input that shows it | evidently intended | confidence | as-written member | corrected member |
|---|---|---|---|---|---|---|
| condensator.py:91-93 | the guard `"inf" in variable` is case-sensitive, but `float()` accepts any case | `Inf` (or `INFINITY`) at the velocity prompt: `float` gives +inf, `positive_check` accepts it | every infinity is rejected | not executed; high | Input.CapitalisedInfinityAccepted | Input.AttemptFinite |
| condensator.py:101, 107 | `float(value) <= 0` and `float(value) == 0` are both false for NaN, so neither check raises | `nan` at any prompt is accepted and returned as NaN | only a real number that passes the check is accepted | not executed; medium | Input.NaNAccepted | Input.AttemptFinite |
