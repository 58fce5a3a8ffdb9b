# Euler and RK4 integrators of the ODE solver window

This project models the two fixed-step integrators of `ODESolverApp` in
`lab6.py` (`solve_euler` and `solve_rk4`). Each one integrates y' = f(x, y)
from (x0, y0) towards xn with step h and returns the two parallel lists
`xs` and `ys`. It proves what the lists contain.

- `Wrappers.Result` is the outcome of one evaluation of f. `Fail` stands
  for the `ZeroDivisionError` or `ValueError` the integrators catch.
- `Schemes` defines one step of each method. `EulerStep` is
  y + h·f(x, y). `Rk4Step` is the classical fourth-order Runge–Kutta
  step: k1..k4 are evaluated in order, and the first failing stage fails
  the step. `Increment(h, s)` is the product h·s, written as a named
  function so each stage value is a term of its own.
- `Trajectories` holds the specification:
  - `Eps` is the guard tolerance 1e-9 and `Limit(xn)` is xn − 1e-9.
  - `StepsLeft` is the number of steps a run takes when nothing fails:
    the least n with x + n·h ≥ xn − 1e-9.
  - `Solve` is the run itself as a recursive function: emit the current
    sample, then step while x is below the limit and the step succeeds.
  - The lemmas say what `Solve` returns.
- `OdeSolverApp.SolveEuler` and `OdeSolverApp.SolveRk4` are the two loops.
  Each grows `xs`/`ys` by appending, updates `x`/`y`, and leaves the loop
  with `break` on a failed evaluation. Both are proved to return exactly
  `Solve`. `OdeSolverApp.Rk4Update` is the stage computation of the RK4
  `try` block.

Python floats are modelled as `real` and the tolerance as 1/1000000000.
`x` is a real that grows by h exactly, so `xs[i]` is exactly x0 + i·h.
The right-hand side is an abstract total function
`(real, real) -> Result<real>`, so it is deterministic, has no side
effects and returns a real or fails. The step size h > 0 is a precondition.
The source does not check it, and without it the loop need not terminate.

The model follows what `lab6.py` does at two points that are easy to
misread:
- A value that is NaN or infinite but was produced without an exception
  does not stop the loop. Only a caught exception does (`lab6.py:62`,
  `lab6.py:80`).
- When f never fails, the run takes 1 + ⌈(xn − 1e-9 − x0)/h⌉ samples if
  that ceiling is positive, which is 1 + `StepsLeft`; a failure can only
  make it shorter. That count is not ⌊(xn − x0)/h + ε⌋ + 1 in general,
  because the loop can overstep xn. For example x0 = 0, xn = 1, h = 0.3
  gives five samples, the last being 1.2, where that formula gives four
  (`OvershootRun`).

## Model

| member | source | states |
|---|---|---|
| `OdeSolverApp.SolveEuler` | lab6.py:53-64 | The lists returned by the Euler loop (seeded with (x0, y0), a guard of x < xn − 1e-9, a break on a failed evaluation) are exactly `Solve(Euler, …)`. So for a deterministic f the result depends only on the arguments, and equal inputs give equal lists. |
| `OdeSolverApp.SolveRk4` | lab6.py:66-82 | The lists returned by the RK4 loop are exactly `Solve(Rk4, …)`, so for a deterministic f it likewise depends on the arguments alone. |
| `OdeSolverApp.Rk4Update` | lab6.py:70-76 | The four stage evaluations, taken in order and stopping at the first failure, give exactly `Rk4Step`. |
| `Schemes.Rk4Simpson` | lab6.py:71-76 | When f depends on x alone, an RK4 step adds h·(g(x) + 4·g(x + h/2) + g(x + h))/6: Simpson's rule for the integral of g over [x, x + h]. |
| `Trajectories.Solve` | lab6.py:54-61 | In every run the two lists have equal length of at least 1 and begin with x0 and y0. |
| `Trajectories.StepsLeft` | lab6.py:56-59 | The step count n is 0 exactly when x ≥ xn − 1e-9. n steps of h reach xn − 1e-9, and when n > 0, n − 1 steps do not. So n is the least such count. |
| `Trajectories.StepsLeftUnique` | lab6.py:56-59 | Any count with those two properties equals `StepsLeft`. |
| `Trajectories.StepsLeftNext` | lab6.py:56-59 | A step from below the limit leaves exactly one step fewer. In this real-valued model that proves the loop terminates when h > 0; with floats it need not (see "## Left out"). |
| `Trajectories.SolveCharacterized` | lab6.py:53-82 | A pair of lists is the result iff four things hold: equal lengths of at least 1, seeded with (x0, y0); every sample except the last had x < xn − 1e-9 and was followed by a successful step to x + h; and at the last sample either the guard is false or the step fails. |
| `Trajectories.SolveQuadrature` | lab6.py:53-82 | When f(x, y) = g(x) never fails, sample i has y-value y0 plus the composite rule over the first i grid intervals: left rectangles for Euler, Simpson's rule for RK4. |
| `Trajectories.QuadratureRun` | lab6.py:53-82 | When f(x, y) = g(x) never fails, the run has 1 + `StepsLeft` samples and its last y is y0 plus the composite rule over all of them. |
| `Trajectories.SolveGrid` | lab6.py:55-60 | Sample i has x-value x0 + i·h, an arithmetic progression with difference h. |
| `Trajectories.SolveBelowLimit` | lab6.py:56-60 | Every sample except the last has x < xn − 1e-9. When a step was taken, the last x is below xn − 1e-9 + h, so the run never overshoots by a step or more. |
| `Trajectories.SolveStartPastLimit` | lab6.py:54-56 | If x0 ≥ xn − 1e-9 the result is exactly [x0], [y0]. |
| `Trajectories.SolveLengthBound` | lab6.py:56-63 | A run never has more than 1 + `StepsLeft` samples. A failure can only cut it short. |
| `Trajectories.SolveNeverFails` | lab6.py:56-61 | If f never fails, the run has exactly 1 + `StepsLeft` samples and its last x is at or beyond xn − 1e-9. |
| `Trajectories.EulerRecurrence` | lab6.py:58-61 | For each consecutive pair of Euler samples, f succeeded at sample i, ys[i+1] = ys[i] + h·f(xs[i], ys[i]), and xs[i+1] = xs[i] + h. |
| `Trajectories.EulerFailure` | lab6.py:57-63 | An Euler run that ends below xn − 1e-9 ended because f failed at its last sample. Nothing of the failed step was appended. |
| `Trajectories.Rk4Recurrence` | lab6.py:71-79 | For each consecutive pair of RK4 samples, all four stages succeeded at sample i, ys[i+1] = ys[i] + (k1 + 2k2 + 2k3 + k4)/6, and xs[i+1] = xs[i] + h. |
| `Trajectories.Rk4Failure` | lab6.py:70-81 | An RK4 run that ends below xn − 1e-9 ended because one of the four stages failed at its last sample. Nothing of the abandoned step was appended. |
| `Trajectories.SolvePrefix` | lab6.py:97-98 | For any two runs from the same x0 with the same h, the shorter list of x-samples is a prefix of the longer one, whatever the schemes and right-hand sides. |
| `Trajectories.SchemesShareGrid` | lab6.py:97-98 | With an f that never fails, Euler and RK4 return the same x-samples. |
| `Trajectories.DefaultStepCount` | lab6.py:18-21 | The window's default inputs x0 = 1.0, xn = 2.6, h = 0.1 give 16 steps, so 17 samples if f never fails. |
| `Trajectories.OvershootStepCount` | lab6.py:56-59 | With x0 = 0, xn = 1, h = 0.3 the step count is 4, because 0.9 is still below xn − 1e-9. |
| `Trajectories.DefaultRun` | lab6.py:18-21 | With the default inputs and an f that never fails, either scheme returns 17 samples and the last x is exactly 2.6. |
| `Trajectories.OvershootRun` | lab6.py:55-60 | With x0 = 0, xn = 1, h = 0.3 and an f that never fails, either scheme returns the x-samples 0, 0.3, 0.6, 0.9, 1.2, so the last lies beyond xn. |

## Left out

- The window: `__init__`, `create_input` and `on_plot_clicked` (`lab6.py:8-50`, `lab6.py:84-124`). They are PyQt6 and matplotlib presentation code with no algorithmic content.
- Building f from the entered text with `eval` (`lab6.py:93-94`). f is an abstract parameter of the model.
- IEEE floating-point rounding. Reals are exact, so the drift from repeated `x += h` that the 1e-9 tolerance absorbs, and the accuracy of either method, are not modelled. The float nearest 1e-9 is modelled as exactly 1/1000000000.
- Termination with floats. `StepsLeft`, `StepsLeftNext`, `SolveNeverFails` and the loops' `decreases` clauses hold over reals only. In `lab6.py:59` and `lab6.py:77`, `x += h` leaves x unchanged when h is below half a unit in the last place of x (for example x0 = 1.0, xn = 2.0, h = 1e-17), and the loops at `lab6.py:56` and `lab6.py:69` then never exit while f keeps succeeding. The model does not capture that non-termination.
- NaN and infinite values, and complex values (such as `x**0.5` at a negative x), produced without an exception. The source appends them like any other value and carries on with a non-real y. A real-valued f cannot return them.
- A nondeterministic or side-effecting f. The text handed to `eval` may call, for example, `np.random.rand()`, so two evaluations at the same (x, y) can differ. The model's f is a mathematical function, so "equal inputs give equal lists" holds only for a deterministic f.
- Exceptions other than `ZeroDivisionError` and `ValueError`, such as `OverflowError`. They leave the integrators and reach the dialog handler at `lab6.py:117-118`, which is not part of this model.
- `h <= 0` and other unvalidated inputs. h > 0 is a precondition of every member that runs the loop.
- The RK4 stage computation of the `try` block lives in the separate method `Rk4Update` rather than inline in the loop. The loop calls it once per step and breaks when it returns `Fail`. The order of evaluation and the early exit are kept.
