/** The two integrators of the solver window. Each keeps the current sample
    (x, y) and the output lists xs and ys, steps while x is below
    xn - 1e-9, and stops at the first failed evaluation of f. Neither reads
    nor writes any state of the window: the result is a function of the
    arguments alone. */
module OdeSolverApp {
  import opened Wrappers
  import opened Schemes
  import opened Trajectories

  /** Explicit Euler, y += h * f(x, y), from (x0, y0) towards xn. */
  method SolveEuler(f: Rhs, x0: real, y0: real, h: real, xn: real) returns (xs: seq<real>, ys: seq<real>)
    requires h > 0.0
    ensures Trajectory(xs, ys) == Solve(Euler, f, x0, y0, h, xn)
  {
    xs, ys := [x0], [y0];
    var x, y := x0, y0;
    while x < xn - Eps
      invariant Completes(Euler, f, x0, y0, h, xn, xs, ys, x, y)
      decreases StepsLeft(x, h, xn)
    {
      var slope := f(x, y);
      if slope.Fail? {
        break;
      }
      StepsLeftNext(x, h, xn);
      CompletesStep(Euler, f, x0, y0, h, xn, xs, ys, x, y, y + h * slope.value);
      y := y + h * slope.value;
      x := x + h;
      xs := xs + [x];
      ys := ys + [y];
    }
    CompletesStop(Euler, f, x0, y0, h, xn, xs, ys, x, y);
  }

  /** Classical RK4 from (x0, y0) towards xn; a step whose stage fails is
      abandoned before anything of it is appended. */
  method SolveRk4(f: Rhs, x0: real, y0: real, h: real, xn: real) returns (xs: seq<real>, ys: seq<real>)
    requires h > 0.0
    ensures Trajectory(xs, ys) == Solve(Rk4, f, x0, y0, h, xn)
  {
    xs, ys := [x0], [y0];
    var x, y := x0, y0;
    while x < xn - Eps
      invariant Completes(Rk4, f, x0, y0, h, xn, xs, ys, x, y)
      decreases StepsLeft(x, h, xn)
    {
      var next := Rk4Update(f, h, x, y);
      if next.Fail? {
        break;
      }
      StepsLeftNext(x, h, xn);
      CompletesStep(Rk4, f, x0, y0, h, xn, xs, ys, x, y, next.value);
      y := next.value;
      x := x + h;
      xs := xs + [x];
      ys := ys + [y];
    }
    CompletesStop(Rk4, f, x0, y0, h, xn, xs, ys, x, y);
  }

  /** The body of one RK4 step: the four stages in order, the first failing
      one abandoning the step; otherwise the new y-value. */
  method Rk4Update(f: Rhs, h: real, x: real, y: real) returns (next: Result<real>)
    ensures next == Rk4Step(f, h, x, y)
  {
    var s1 := f(x, y);
    if s1.Fail? {
      Rk4StepStages(f, h, x, y, s1, Fail, Fail, Fail);
      return Fail;
    }
    var k1 := h * s1.value;
    var s2 := f(x + 0.5 * h, y + 0.5 * k1);
    if s2.Fail? {
      Rk4StepStages(f, h, x, y, s1, s2, Fail, Fail);
      return Fail;
    }
    var k2 := h * s2.value;
    var s3 := f(x + 0.5 * h, y + 0.5 * k2);
    if s3.Fail? {
      Rk4StepStages(f, h, x, y, s1, s2, s3, Fail);
      return Fail;
    }
    var k3 := h * s3.value;
    var s4 := f(x + h, y + k3);
    if s4.Fail? {
      Rk4StepStages(f, h, x, y, s1, s2, s3, s4);
      return Fail;
    }
    var k4 := h * s4.value;
    Rk4StepStages(f, h, x, y, s1, s2, s3, s4);
    return Ok(y + (k1 + 2.0 * k2 + 2.0 * k3 + k4) / 6.0);
  }
}
