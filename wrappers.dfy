/** The outcome of evaluating the right-hand side of y' = f(x, y). */
module Wrappers {

  /** `Ok(v)` is a value the evaluation produced; `Fail` stands for an
      evaluation that raised one of the exceptions the integrators catch
      (division by zero, a math-domain error). */
  datatype Result<+T> = Ok(value: T) | Fail
}
