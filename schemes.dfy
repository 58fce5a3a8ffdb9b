/** One step of each of the two fixed-step integration schemes. */
module Schemes {
  import opened Wrappers

  /** The right-hand side of y' = f(x, y): a total function that either
      yields a slope or fails. */
  type Rhs = (real, real) -> Result<real>

  datatype Scheme = Euler | Rk4

  /** The change in y over a step of width h along the given slope.
      (Named so that the stage values of a step are terms of their own.) */
  function Increment(h: real, slope: real): real
  {
    h * slope
  }

  /** Explicit Euler: y + h * f(x, y). The step fails exactly when the
      slope at (x, y) fails, and otherwise moves y by h times that slope. */
  function EulerStep(f: Rhs, h: real, x: real, y: real): (r: Result<real>)
    ensures r.Fail? <==> f(x, y).Fail?
    ensures r.Ok? ==> r.value - y == h * f(x, y).value
  {
    match f(x, y)
    case Fail => Fail
    case Ok(slope) => Ok(y + Increment(h, slope))
  }

  /** Classical Runge-Kutta of order four: the stages are evaluated in
      order and the first one that fails fails the step; in particular
      a failure at (x, y) fails it. */
  function Rk4Step(f: Rhs, h: real, x: real, y: real): (r: Result<real>)
    ensures f(x, y).Fail? ==> r.Fail?
  {
    match f(x, y)
    case Fail => Fail
    case Ok(s1) =>
      var k1 := Increment(h, s1);
      match f(x + 0.5 * h, y + 0.5 * k1)
      case Fail => Fail
      case Ok(s2) =>
        var k2 := Increment(h, s2);
        match f(x + 0.5 * h, y + 0.5 * k2)
        case Fail => Fail
        case Ok(s3) =>
          var k3 := Increment(h, s3);
          match f(x + h, y + k3)
          case Fail => Fail
          case Ok(s4) =>
            var k4 := Increment(h, s4);
            Ok(y + (k1 + 2.0 * k2 + 2.0 * k3 + k4) / 6.0)
  }

  /** The new y-value after one step of scheme `s` from (x, y). Both
      schemes evaluate f at (x, y) first, so a failure there fails the step. */
  function Advance(s: Scheme, f: Rhs, h: real, x: real, y: real): (r: Result<real>)
    ensures r.Ok? ==> f(x, y).Ok?
    ensures s == Euler ==> r == EulerStep(f, h, x, y)
    ensures s == Rk4 ==> r == Rk4Step(f, h, x, y)
  {
    match s
    case Euler => EulerStep(f, h, x, y)
    case Rk4 => Rk4Step(f, h, x, y)
  }

  /** Rk4Step from the results s1..s4 of its four stage evaluations, taken
      in order; the results after a failed stage are not looked at. */
  lemma Rk4StepStages(f: Rhs, h: real, x: real, y: real, s1: Result<real>, s2: Result<real>, s3: Result<real>, s4: Result<real>)
    requires s1 == f(x, y)
    requires s1.Ok? ==> s2 == f(x + 0.5 * h, y + 0.5 * (h * s1.value))
    requires s1.Ok? && s2.Ok? ==> s3 == f(x + 0.5 * h, y + 0.5 * (h * s2.value))
    requires s1.Ok? && s2.Ok? && s3.Ok? ==> s4 == f(x + h, y + h * s3.value)
    ensures s1.Fail? || s2.Fail? || s3.Fail? || s4.Fail? ==> Rk4Step(f, h, x, y).Fail?
    ensures s1.Ok? && s2.Ok? && s3.Ok? && s4.Ok? ==>
      var k1, k2, k3, k4 := h * s1.value, h * s2.value, h * s3.value, h * s4.value;
      Rk4Step(f, h, x, y) == Ok(y + (k1 + 2.0 * k2 + 2.0 * k3 + k4) / 6.0)
  {
    assert s1.Ok? ==> Increment(h, s1.value) == h * s1.value;
    assert s2.Ok? ==> Increment(h, s2.value) == h * s2.value;
    assert s3.Ok? ==> Increment(h, s3.value) == h * s3.value;
    assert s4.Ok? ==> Increment(h, s4.value) == h * s4.value;
  }

  /** When the slope depends on x alone, y' = g(x), an Euler step is the
      left-rectangle rule for the integral of g over [x, x + h]. */
  lemma EulerQuadrature(f: Rhs, g: real -> real, h: real, x: real, y: real)
    requires forall a, b :: f(a, b) == Ok(g(a))
    ensures EulerStep(f, h, x, y) == Ok(y + Increment(h, g(x)))
  {
    assert f(x, y) == Ok(g(x));
  }

  /** When the slope depends on x alone, y' = g(x), an RK4 step is
      Simpson's rule for the integral of g over [x, x + h]: the two middle
      stages coincide and carry weight 4/6 together. */
  lemma Rk4Simpson(f: Rhs, g: real -> real, h: real, x: real, y: real)
    requires forall a, b :: f(a, b) == Ok(g(a))
    ensures Rk4Step(f, h, x, y) == Ok(y + Increment(h, (g(x) + 4.0 * g(x + 0.5 * h) + g(x + h)) / 6.0))
  {
    var a, m, c := g(x), g(x + 0.5 * h), g(x + h);
    var s1 := f(x, y);
    var s2 := f(x + 0.5 * h, y + 0.5 * (h * a));
    var s3 := f(x + 0.5 * h, y + 0.5 * (h * m));
    var s4 := f(x + h, y + h * m);
    assert s1 == Ok(a) && s2 == Ok(m) && s3 == Ok(m) && s4 == Ok(c);
    Rk4StepStages(f, h, x, y, s1, s2, s3, s4);
    var k1, k2, k3, k4 := h * s1.value, h * s2.value, h * s3.value, h * s4.value;
    assert k1 + 2.0 * k2 + 2.0 * k3 + k4 == h * (a + 4.0 * m + c);
    assert Increment(h, (a + 4.0 * m + c) / 6.0) == (k1 + 2.0 * k2 + 2.0 * k3 + k4) / 6.0;
  }
}
