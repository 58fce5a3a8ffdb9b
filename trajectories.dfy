/** The trajectory both integrators produce, as a recursive specification,
    and what is true of it. */
module Trajectories {
  import opened Wrappers
  import opened Schemes

  /** The tolerance of the loop guard `x < xn - 1e-9`. */
  const Eps: real := 0.000000001

  /** The loop runs while the current x is below this bound. */
  function Limit(xn: real): real
  {
    xn - Eps
  }

  /** The i-th point of the grid that starts at x0 with spacing h. */
  function Grid(x0: real, h: real, i: nat): real
  {
    x0 + (i as real) * h
  }

  /** The two parallel output lists. */
  datatype Trajectory = Trajectory(xs: seq<real>, ys: seq<real>)

  /** The number of steps a run from x takes when no evaluation fails:
      the least n with x + n * h at or beyond the limit. */
  function StepsLeft(x: real, h: real, xn: real): (n: nat)
    requires h > 0.0
    ensures n == 0 <==> x >= Limit(xn)
    ensures Grid(x, h, n) >= Limit(xn)
    ensures n > 0 ==> Grid(x, h, n - 1) < Limit(xn)
  {
    if x >= Limit(xn) then 0
    else
      var t := (Limit(xn) - x) / h;
      QuotientPositive(Limit(xn) - x, h);
      var k := t.Floor;
      var n := if k as real == t then k else k + 1;
      CeilBounds(t, k, n);
      ReachBounds(x, h, Limit(xn), t, n);
      n
  }

  lemma QuotientPositive(a: real, h: real)
    requires a > 0.0 && h > 0.0
    ensures a / h > 0.0
  {
  }

  /** n is the ceiling of a positive t. */
  lemma CeilBounds(t: real, k: int, n: int)
    requires t > 0.0 && k == t.Floor
    requires n == if k as real == t then k else k + 1
    ensures n >= 1 && (n as real) >= t && ((n - 1) as real) < t
  {
  }

  /** When n is the ceiling of (lim - x) / h, n steps from x reach lim and
      n - 1 steps do not. */
  lemma ReachBounds(x: real, h: real, lim: real, t: real, n: int)
    requires h > 0.0
    requires t == (lim - x) / h
    requires (n as real) >= t && ((n - 1) as real) < t
    ensures x + (n as real) * h >= lim
    ensures x + ((n - 1) as real) * h < lim
  {
    assert t * h == lim - x;
    MulMono(t, n as real, h);
    MulStrict((n - 1) as real, t, h);
  }

  lemma MulMono(a: real, b: real, h: real)
    requires h > 0.0 && a <= b
    ensures a * h <= b * h
  {
  }

  lemma MulStrict(a: real, b: real, h: real)
    requires h > 0.0 && a < b
    ensures a * h < b * h
  {
  }

  /** Grid points increase with their index. */
  lemma GridBefore(x: real, h: real, i: nat, j: nat)
    requires h > 0.0
    ensures i < j ==> Grid(x, h, i) <= Grid(x, h, j - 1)
  {
    if i < j {
      MulMono(i as real, (j - 1) as real, h);
    }
  }

  /** Starting one step later is the same grid shifted by one index. */
  lemma GridShift(x: real, h: real, i: nat)
    ensures Grid(x + h, h, i) == Grid(x, h, i + 1)
  {
    assert (i + 1) as real * h == (i as real) * h + h;
  }

  /** Any n with the properties of StepsLeft is StepsLeft. */
  lemma StepsLeftUnique(x: real, h: real, xn: real, n: nat)
    requires h > 0.0
    requires Grid(x, h, n) >= Limit(xn)
    requires n > 0 ==> Grid(x, h, n - 1) < Limit(xn)
    ensures n == StepsLeft(x, h, xn)
  {
    var m := StepsLeft(x, h, xn);
    GridBefore(x, h, n, m);
    GridBefore(x, h, m, n);
  }

  /** A step taken below the limit leaves one step fewer. */
  lemma StepsLeftNext(x: real, h: real, xn: real)
    requires h > 0.0
    requires x < Limit(xn)
    ensures StepsLeft(x + h, h, xn) == StepsLeft(x, h, xn) - 1
  {
    var n := StepsLeft(x, h, xn);
    GridShift(x, h, n - 1);
    if n > 1 {
      GridShift(x, h, n - 2);
    }
    StepsLeftUnique(x + h, h, xn, n - 1);
  }

  /** The lists returned by the integrator for scheme `s` started at (x, y):
      the current sample, then, while x is below the limit and the step
      succeeds, the run from the next sample. */
  function Solve(s: Scheme, f: Rhs, x: real, y: real, h: real, xn: real): (t: Trajectory)
    requires h > 0.0
    ensures |t.xs| == |t.ys| >= 1
    ensures t.xs[0] == x && t.ys[0] == y
    decreases StepsLeft(x, h, xn)
  {
    if x < Limit(xn) then
      match Advance(s, f, h, x, y)
      case Ok(y') =>
        StepsLeftNext(x, h, xn);
        var rest := Solve(s, f, x + h, y', h, xn);
        Trajectory([x] + rest.xs, [y] + rest.ys)
      case Fail => Trajectory([x], [y])
    else
      Trajectory([x], [y])
  }

  /** What follows the first sample of a run: the run from the next
      sample when a step is taken, nothing otherwise. */
  lemma SolveTail(s: Scheme, f: Rhs, x: real, y: real, h: real, xn: real)
    requires h > 0.0
    ensures var t := Solve(s, f, x, y, h, xn);
      if x < Limit(xn) && Advance(s, f, h, x, y).Ok? then
        var rest := Solve(s, f, x + h, Advance(s, f, h, x, y).value, h, xn);
        t.xs[1..] == rest.xs && t.ys[1..] == rest.ys
      else
        t.xs[1..] == [] && t.ys[1..] == []
  {
    if x < Limit(xn) && Advance(s, f, h, x, y).Ok? {
      var rest := Solve(s, f, x + h, Advance(s, f, h, x, y).value, h, xn);
      assert Solve(s, f, x, y, h, xn).xs == [x] + rest.xs;
      assert Solve(s, f, x, y, h, xn).ys == [y] + rest.ys;
    }
  }

  /** The lists (xs, ys) built so far, ending in sample (x, y), followed by
      the rest of the run from (x, y), make up the whole run from (x0, y0). */
  ghost predicate Completes(s: Scheme, f: Rhs, x0: real, y0: real, h: real, xn: real,
                            xs: seq<real>, ys: seq<real>, x: real, y: real)
    requires h > 0.0
  {
    var whole, rest := Solve(s, f, x0, y0, h, xn), Solve(s, f, x, y, h, xn);
    xs + rest.xs[1..] == whole.xs && ys + rest.ys[1..] == whole.ys
  }

  /** Appending a completed step keeps Completes. */
  lemma CompletesStep(s: Scheme, f: Rhs, x0: real, y0: real, h: real, xn: real,
                      xs: seq<real>, ys: seq<real>, x: real, y: real, y': real)
    requires h > 0.0
    requires x < Limit(xn) && Advance(s, f, h, x, y) == Ok(y')
    requires Completes(s, f, x0, y0, h, xn, xs, ys, x, y)
    ensures Completes(s, f, x0, y0, h, xn, xs + [x + h], ys + [y'], x + h, y')
  {
    SolveTail(s, f, x, y, h, xn);
    var rest := Solve(s, f, x + h, y', h, xn);
    ShiftFirst(xs, rest.xs);
    ShiftFirst(ys, rest.ys);
  }

  lemma ShiftFirst(a: seq<real>, b: seq<real>)
    requires |b| >= 1
    ensures a + b == (a + [b[0]]) + b[1..]
  {
    assert b == [b[0]] + b[1..];
  }

  /** When the run stops at (x, y), the lists built so far are the whole run. */
  lemma CompletesStop(s: Scheme, f: Rhs, x0: real, y0: real, h: real, xn: real,
                      xs: seq<real>, ys: seq<real>, x: real, y: real)
    requires h > 0.0
    requires x >= Limit(xn) || Advance(s, f, h, x, y).Fail?
    requires Completes(s, f, x0, y0, h, xn, xs, ys, x, y)
    ensures Trajectory(xs, ys) == Solve(s, f, x0, y0, h, xn)
  {
    SolveTail(s, f, x, y, h, xn);
    assert xs + [] == xs && ys + [] == ys;
  }

  /** Sample (x, y) is followed by sample (x', y'): the guard held at x and
      the step succeeded with value y'. */
  predicate Stepped(s: Scheme, f: Rhs, h: real, xn: real, x: real, y: real, x': real, y': real)
  {
    x < Limit(xn) && x' == x + h && Advance(s, f, h, x, y) == Ok(y')
  }

  /** The run stops at sample (x, y): the guard is false or the step fails. */
  predicate Stops(s: Scheme, f: Rhs, h: real, xn: real, x: real, y: real)
  {
    x >= Limit(xn) || Advance(s, f, h, x, y).Fail?
  }

  /** A description of a run that does not follow the loop: lists of equal
      length seeded with (x0, y0), every sample but the last followed by a
      completed step, and the run stopping at the last sample. */
  predicate IsRun(s: Scheme, f: Rhs, x0: real, y0: real, h: real, xn: real, xs: seq<real>, ys: seq<real>)
  {
    && |xs| == |ys| >= 1
    && xs[0] == x0 && ys[0] == y0
    && (forall i :: 0 <= i < |xs| - 1 ==> Stepped(s, f, h, xn, xs[i], ys[i], xs[i + 1], ys[i + 1]))
    && Stops(s, f, h, xn, xs[|xs| - 1], ys[|ys| - 1])
  }

  /** A completed step from (x0, y0) followed by a run from the next sample
      is a run from (x0, y0). */
  lemma IsRunCons(s: Scheme, f: Rhs, x0: real, y0: real, h: real, xn: real, xs: seq<real>, ys: seq<real>)
    requires |xs| >= 1 && |ys| >= 1
    requires IsRun(s, f, xs[0], ys[0], h, xn, xs, ys)
    requires Stepped(s, f, h, xn, x0, y0, xs[0], ys[0])
    ensures IsRun(s, f, x0, y0, h, xn, [x0] + xs, [y0] + ys)
  {
    var xs', ys' := [x0] + xs, [y0] + ys;
    forall i | 0 <= i < |xs'| - 1
      ensures Stepped(s, f, h, xn, xs'[i], ys'[i], xs'[i + 1], ys'[i + 1])
    {
      if i > 0 {
        assert xs'[i] == xs[i - 1] && xs'[i + 1] == xs[i];
        assert ys'[i] == ys[i - 1] && ys'[i + 1] == ys[i];
      }
    }
  }

  /** What follows the first sample of a run of two or more samples is a
      run from the second sample. */
  lemma IsRunTail(s: Scheme, f: Rhs, x0: real, y0: real, h: real, xn: real, xs: seq<real>, ys: seq<real>)
    requires IsRun(s, f, x0, y0, h, xn, xs, ys)
    requires |xs| > 1
    ensures Stepped(s, f, h, xn, x0, y0, xs[1], ys[1])
    ensures IsRun(s, f, xs[1], ys[1], h, xn, xs[1..], ys[1..])
  {
    assert Stepped(s, f, h, xn, xs[0], ys[0], xs[1], ys[1]);
    forall i | 0 <= i < |xs[1..]| - 1
      ensures Stepped(s, f, h, xn, xs[1..][i], ys[1..][i], xs[1..][i + 1], ys[1..][i + 1])
    {
      assert Stepped(s, f, h, xn, xs[i + 1], ys[i + 1], xs[i + 2], ys[i + 2]);
    }
  }

  lemma {:induction false} SolveIsRun(s: Scheme, f: Rhs, x0: real, y0: real, h: real, xn: real)
    requires h > 0.0
    ensures IsRun(s, f, x0, y0, h, xn, Solve(s, f, x0, y0, h, xn).xs, Solve(s, f, x0, y0, h, xn).ys)
    decreases StepsLeft(x0, h, xn)
  {
    if x0 < Limit(xn) && Advance(s, f, h, x0, y0).Ok? {
      var y1 := Advance(s, f, h, x0, y0).value;
      StepsLeftNext(x0, h, xn);
      var rest := Solve(s, f, x0 + h, y1, h, xn);
      SolveIsRun(s, f, x0 + h, y1, h, xn);
      IsRunCons(s, f, x0, y0, h, xn, rest.xs, rest.ys);
    }
  }

  lemma {:induction false} RunIsSolve(s: Scheme, f: Rhs, x0: real, y0: real, h: real, xn: real, xs: seq<real>, ys: seq<real>)
    requires h > 0.0
    requires IsRun(s, f, x0, y0, h, xn, xs, ys)
    ensures Trajectory(xs, ys) == Solve(s, f, x0, y0, h, xn)
    decreases |xs|
  {
    if |xs| > 1 {
      IsRunTail(s, f, x0, y0, h, xn, xs, ys);
      RunIsSolve(s, f, xs[1], ys[1], h, xn, xs[1..], ys[1..]);
      assert xs == [x0] + xs[1..] && ys == [y0] + ys[1..];
    }
  }

  /** IsRun pins the result down exactly: a pair of lists is what the
      integrator returns if and only if it satisfies IsRun. */
  lemma SolveCharacterized(s: Scheme, f: Rhs, x0: real, y0: real, h: real, xn: real, xs: seq<real>, ys: seq<real>)
    requires h > 0.0
    ensures IsRun(s, f, x0, y0, h, xn, xs, ys) <==> Trajectory(xs, ys) == Solve(s, f, x0, y0, h, xn)
  {
    SolveIsRun(s, f, x0, y0, h, xn);
    if IsRun(s, f, x0, y0, h, xn, xs, ys) {
      RunIsSolve(s, f, x0, y0, h, xn, xs, ys);
    }
  }

  /** The x-samples form the arithmetic progression x0, x0 + h, x0 + 2h, ... */
  lemma {:induction false} SolveGrid(s: Scheme, f: Rhs, x0: real, y0: real, h: real, xn: real, i: nat)
    requires h > 0.0
    requires i < |Solve(s, f, x0, y0, h, xn).xs|
    ensures Solve(s, f, x0, y0, h, xn).xs[i] == Grid(x0, h, i)
    decreases i
  {
    if i > 0 {
      var y1 := Advance(s, f, h, x0, y0).value;
      SolveTail(s, f, x0, y0, h, xn);
      SolveGrid(s, f, x0 + h, y1, h, xn, i - 1);
      GridShift(x0, h, i - 1);
    }
  }

  /** Every sample but the last lies below the limit, and when a step was
      taken the last sample is less than one step beyond the limit. */
  lemma SolveBelowLimit(s: Scheme, f: Rhs, x0: real, y0: real, h: real, xn: real)
    requires h > 0.0
    ensures var t := Solve(s, f, x0, y0, h, xn);
      && (forall i :: 0 <= i < |t.xs| - 1 ==> t.xs[i] < Limit(xn))
      && (|t.xs| > 1 ==> t.xs[|t.xs| - 1] < Limit(xn) + h)
  {
    var t := Solve(s, f, x0, y0, h, xn);
    SolveIsRun(s, f, x0, y0, h, xn);
    if |t.xs| > 1 {
      var n := |t.xs|;
      assert Stepped(s, f, h, xn, t.xs[n - 2], t.ys[n - 2], t.xs[n - 1], t.ys[n - 1]);
    }
    forall i | 0 <= i < |t.xs| - 1 ensures t.xs[i] < Limit(xn) {
      assert Stepped(s, f, h, xn, t.xs[i], t.ys[i], t.xs[i + 1], t.ys[i + 1]);
    }
  }

  /** A run started at or beyond the limit is the initial sample alone. */
  lemma SolveStartPastLimit(s: Scheme, f: Rhs, x0: real, y0: real, h: real, xn: real)
    requires h > 0.0
    requires x0 >= Limit(xn)
    ensures Solve(s, f, x0, y0, h, xn) == Trajectory([x0], [y0])
  {
  }

  /** A run never takes more steps than StepsLeft: a failure can only cut
      it short. */
  lemma {:induction false} SolveLengthBound(s: Scheme, f: Rhs, x0: real, y0: real, h: real, xn: real)
    requires h > 0.0
    ensures |Solve(s, f, x0, y0, h, xn).xs| <= 1 + StepsLeft(x0, h, xn)
    decreases StepsLeft(x0, h, xn)
  {
    if x0 < Limit(xn) && Advance(s, f, h, x0, y0).Ok? {
      StepsLeftNext(x0, h, xn);
      SolveLengthBound(s, f, x0 + h, Advance(s, f, h, x0, y0).value, h, xn);
    }
  }

  /** The right-hand side is defined everywhere. */
  ghost predicate NeverFails(f: Rhs)
  {
    forall x, y :: f(x, y).Ok?
  }

  lemma AdvanceNeverFails(s: Scheme, f: Rhs, h: real, x: real, y: real)
    requires NeverFails(f)
    ensures Advance(s, f, h, x, y).Ok?
  {
    assert f(x, y).Ok?;
    var k1 := Increment(h, f(x, y).value);
    assert f(x + 0.5 * h, y + 0.5 * k1).Ok?;
    var k2 := Increment(h, f(x + 0.5 * h, y + 0.5 * k1).value);
    assert f(x + 0.5 * h, y + 0.5 * k2).Ok?;
    var k3 := Increment(h, f(x + 0.5 * h, y + 0.5 * k2).value);
    assert f(x + h, y + k3).Ok?;
  }

  /** With a right-hand side that never fails the run ends normally: it
      takes exactly StepsLeft steps and its last x is at or beyond the limit. */
  lemma {:induction false} SolveNeverFails(s: Scheme, f: Rhs, x0: real, y0: real, h: real, xn: real)
    requires h > 0.0
    requires NeverFails(f)
    ensures var t := Solve(s, f, x0, y0, h, xn);
      |t.xs| == 1 + StepsLeft(x0, h, xn) && t.xs[|t.xs| - 1] >= Limit(xn)
    decreases StepsLeft(x0, h, xn)
  {
    if x0 < Limit(xn) {
      AdvanceNeverFails(s, f, h, x0, y0);
      StepsLeftNext(x0, h, xn);
      SolveNeverFails(s, f, x0 + h, Advance(s, f, h, x0, y0).value, h, xn);
    }
  }

  /** Euler recurrence: each sample after the first is the previous one
      plus h times the slope there. */
  lemma EulerRecurrence(f: Rhs, x0: real, y0: real, h: real, xn: real, i: nat)
    requires h > 0.0
    requires i + 1 < |Solve(Euler, f, x0, y0, h, xn).xs|
    ensures var t := Solve(Euler, f, x0, y0, h, xn);
      && f(t.xs[i], t.ys[i]).Ok?
      && t.ys[i + 1] == t.ys[i] + h * f(t.xs[i], t.ys[i]).value
      && t.xs[i + 1] == t.xs[i] + h
  {
    var t := Solve(Euler, f, x0, y0, h, xn);
    SolveIsRun(Euler, f, x0, y0, h, xn);
    assert Stepped(Euler, f, h, xn, t.xs[i], t.ys[i], t.xs[i + 1], t.ys[i + 1]);
  }

  /** A run that stops below the limit stopped because f failed at the last sample. */
  lemma EulerFailure(f: Rhs, x0: real, y0: real, h: real, xn: real)
    requires h > 0.0
    ensures var t := Solve(Euler, f, x0, y0, h, xn);
      var x, y := t.xs[|t.xs| - 1], t.ys[|t.ys| - 1];
      x < Limit(xn) ==> f(x, y).Fail?
  {
    SolveIsRun(Euler, f, x0, y0, h, xn);
  }

  /** RK4 recurrence: each sample after the first is the previous one plus
      the 1:2:2:1 average of the four stages k1 = h f(x, y),
      k2 = h f(x + h/2, y + k1/2), k3 = h f(x + h/2, y + k2/2) and
      k4 = h f(x + h, y + k3), all of which succeeded. */
  lemma Rk4Recurrence(f: Rhs, x0: real, y0: real, h: real, xn: real, i: nat)
    requires h > 0.0
    requires i + 1 < |Solve(Rk4, f, x0, y0, h, xn).xs|
    ensures var t := Solve(Rk4, f, x0, y0, h, xn);
      var x, y := t.xs[i], t.ys[i];
      && t.xs[i + 1] == x + h
      && match f(x, y)
         case Fail => false
         case Ok(s1) =>
           var k1 := Increment(h, s1);
           match f(x + 0.5 * h, y + 0.5 * k1)
           case Fail => false
           case Ok(s2) =>
             var k2 := Increment(h, s2);
             match f(x + 0.5 * h, y + 0.5 * k2)
             case Fail => false
             case Ok(s3) =>
               var k3 := Increment(h, s3);
               match f(x + h, y + k3)
               case Fail => false
               case Ok(s4) =>
                 var k4 := Increment(h, s4);
                 t.ys[i + 1] == y + (k1 + 2.0 * k2 + 2.0 * k3 + k4) / 6.0
  {
    var t := Solve(Rk4, f, x0, y0, h, xn);
    SolveIsRun(Rk4, f, x0, y0, h, xn);
    assert Stepped(Rk4, f, h, xn, t.xs[i], t.ys[i], t.xs[i + 1], t.ys[i + 1]);
  }

  /** A run that stops below the limit stopped because one of the four
      stages failed at the last sample. */
  lemma Rk4Failure(f: Rhs, x0: real, y0: real, h: real, xn: real)
    requires h > 0.0
    ensures var t := Solve(Rk4, f, x0, y0, h, xn);
      var x, y := t.xs[|t.xs| - 1], t.ys[|t.ys| - 1];
      x < Limit(xn) ==>
        match f(x, y)
        case Fail => true
        case Ok(s1) =>
          var k1 := Increment(h, s1);
          match f(x + 0.5 * h, y + 0.5 * k1)
          case Fail => true
          case Ok(s2) =>
            var k2 := Increment(h, s2);
            match f(x + 0.5 * h, y + 0.5 * k2)
            case Fail => true
            case Ok(s3) =>
              var k3 := Increment(h, s3);
              f(x + h, y + k3).Fail?
  {
    var t := Solve(Rk4, f, x0, y0, h, xn);
    SolveIsRun(Rk4, f, x0, y0, h, xn);
  }

  /** The x-samples of any two runs from the same x0 with the same h agree
      as far as both go, whatever the schemes and right-hand sides, so the
      Euler and RK4 curves can be overlaid sample by sample. */
  lemma SolvePrefix(s: Scheme, f: Rhs, s': Scheme, f': Rhs, x0: real, y0: real, y0': real, h: real, xn: real)
    requires h > 0.0
    ensures var a, b := Solve(s, f, x0, y0, h, xn).xs, Solve(s', f', x0, y0', h, xn).xs;
      |a| <= |b| ==> a == b[..|a|]
  {
    var a, b := Solve(s, f, x0, y0, h, xn).xs, Solve(s', f', x0, y0', h, xn).xs;
    if |a| <= |b| {
      forall i | 0 <= i < |a| ensures a[i] == b[i] {
        SolveGrid(s, f, x0, y0, h, xn, i);
        SolveGrid(s', f', x0, y0', h, xn, i);
      }
    }
  }

  /** With a right-hand side that never fails, Euler and RK4 return the
      same x-samples. */
  lemma SchemesShareGrid(f: Rhs, x0: real, y0: real, h: real, xn: real)
    requires h > 0.0
    requires NeverFails(f)
    ensures Solve(Euler, f, x0, y0, h, xn).xs == Solve(Rk4, f, x0, y0, h, xn).xs
  {
    SolveNeverFails(Euler, f, x0, y0, h, xn);
    SolveNeverFails(Rk4, f, x0, y0, h, xn);
    SolvePrefix(Euler, f, Rk4, f, x0, y0, y0, h, xn);
  }

  /** The window's default inputs x0 = 1.0, xn = 2.6, h = 0.1 give 16 steps,
      17 samples when no evaluation fails. */
  lemma DefaultStepCount()
    ensures StepsLeft(1.0, 0.1, 2.6) == 16
  {
    StepsLeftUnique(1.0, 0.1, 2.6, 16);
  }

  /** When h does not divide xn - x0 the step count rounds up: x0 = 0,
      xn = 1, h = 0.3 take 4 steps when nothing fails. */
  lemma OvershootStepCount()
    ensures StepsLeft(0.0, 0.3, 1.0) == 4
  {
    StepsLeftUnique(0.0, 0.3, 1.0, 4);
  }

  /** With the window's default inputs and a right-hand side that never
      fails, either scheme returns 17 samples, the last exactly at xn = 2.6. */
  lemma DefaultRun(s: Scheme, f: Rhs, y0: real)
    requires NeverFails(f)
    ensures var t := Solve(s, f, 1.0, y0, 0.1, 2.6);
      |t.xs| == 17 && t.xs[16] == 2.6
  {
    DefaultStepCount();
    SolveNeverFails(s, f, 1.0, y0, 0.1, 2.6);
    SolveGrid(s, f, 1.0, y0, 0.1, 2.6, 16);
  }

  /** The overshooting run itself: with a right-hand side that never fails,
      x0 = 0, xn = 1, h = 0.3 give the x-samples 0, 0.3, 0.6, 0.9, 1.2. */
  lemma OvershootRun(s: Scheme, f: Rhs, y0: real)
    requires NeverFails(f)
    ensures Solve(s, f, 0.0, y0, 0.3, 1.0).xs == [0.0, 0.3, 0.6, 0.9, 1.2]
  {
    var xs := Solve(s, f, 0.0, y0, 0.3, 1.0).xs;
    OvershootStepCount();
    SolveNeverFails(s, f, 0.0, y0, 0.3, 1.0);
    forall i | 0 <= i < 5 ensures xs[i] == Grid(0.0, 0.3, i) {
      SolveGrid(s, f, 0.0, y0, 0.3, 1.0, i);
    }
  }

  /** What one step adds to y when the slope depends on x alone,
      y' = g(x): the left-rectangle rule for Euler and Simpson's rule for
      RK4, each over the interval [x, x + h]. */
  function QuadratureStep(s: Scheme, g: real -> real, h: real, x: real): real
  {
    match s
    case Euler => Increment(h, g(x))
    case Rk4 => Increment(h, (g(x) + 4.0 * g(x + 0.5 * h) + g(x + h)) / 6.0)
  }

  /** The composite quadrature rule of scheme `s` over the first n
      intervals of the grid from x0 with spacing h. */
  function QuadratureSum(s: Scheme, g: real -> real, x0: real, h: real, n: nat): real
  {
    if n == 0 then 0.0
    else QuadratureSum(s, g, x0, h, n - 1) + QuadratureStep(s, g, h, Grid(x0, h, n - 1))
  }

  lemma AdvanceQuadrature(s: Scheme, f: Rhs, g: real -> real, h: real, x: real, y: real)
    requires forall a, b :: f(a, b) == Ok(g(a))
    ensures Advance(s, f, h, x, y) == Ok(y + QuadratureStep(s, g, h, x))
  {
    match s
    case Euler => EulerQuadrature(f, g, h, x, y);
    case Rk4 => Rk4Simpson(f, g, h, x, y);
  }

  /** For y' = g(x) every sample of a run is y0 plus the composite rule
      over the intervals before it: left rectangles for Euler, Simpson for
      RK4. */
  lemma {:induction false} SolveQuadrature(s: Scheme, f: Rhs, g: real -> real, x0: real, y0: real, h: real, xn: real, i: nat)
    requires h > 0.0
    requires forall a, b :: f(a, b) == Ok(g(a))
    requires i < |Solve(s, f, x0, y0, h, xn).ys|
    ensures Solve(s, f, x0, y0, h, xn).ys[i] == y0 + QuadratureSum(s, g, x0, h, i)
    decreases i
  {
    if i > 0 {
      var t := Solve(s, f, x0, y0, h, xn);
      SolveQuadrature(s, f, g, x0, y0, h, xn, i - 1);
      SolveIsRun(s, f, x0, y0, h, xn);
      assert Stepped(s, f, h, xn, t.xs[i - 1], t.ys[i - 1], t.xs[i], t.ys[i]);
      SolveGrid(s, f, x0, y0, h, xn, i - 1);
      AdvanceQuadrature(s, f, g, h, t.xs[i - 1], t.ys[i - 1]);
    }
  }

  /** For y' = g(x) the run takes all StepsLeft steps and its last y is
      y0 plus the composite rule over the whole grid. */
  lemma QuadratureRun(s: Scheme, f: Rhs, g: real -> real, x0: real, y0: real, h: real, xn: real)
    requires h > 0.0
    requires forall a, b :: f(a, b) == Ok(g(a))
    ensures var t, n := Solve(s, f, x0, y0, h, xn), StepsLeft(x0, h, xn);
      |t.ys| == n + 1 && t.ys[n] == y0 + QuadratureSum(s, g, x0, h, n)
  {
    assert NeverFails(f) by {
      forall x, y ensures f(x, y).Ok? {
        assert f(x, y) == Ok(g(x));
      }
    }
    SolveNeverFails(s, f, x0, y0, h, xn);
    SolveQuadrature(s, f, g, x0, y0, h, xn, StepsLeft(x0, h, xn));
  }
}
