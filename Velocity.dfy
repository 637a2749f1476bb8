/**
 * VelocityEstimator: the angular velocity of a curve sampled on a circular grid
 * of 360 angles, from the optical-flow constraint dh/dt + v * dh/dtheta = 0
 * solved by least squares over a window of 2w + 1 neighbouring grid points.
 */
module Velocity {
  import opened Numeric

  /** The number of grid points the estimator is written for. */
  const N: nat := 360

  /** `np.pi`: the double nearest to pi, which is exactly 884279719003555 / 2^48. */
  const Pi: real := 884279719003555.0 / 281474976710656.0

  /** The grid spacing the estimator assumes, 2 pi / 360. */
  const DTheta: real := 2.0 * Pi / 360.0

  /** Forward change over the elapsed time, channel by channel: moving each
      previous value at its rate for dt gives the new one. */
  function TimeDerivative(h: seq<real>, hPrev: seq<real>, dt: real): (r: seq<real>)
    requires |h| == |hPrev| && dt != 0.0
    ensures |r| == |h|
    ensures forall i :: 0 <= i < |h| ==> hPrev[i] + r[i] * dt == h[i]
  {
    var r := seq(|h|, i requires 0 <= i < |h| => (h[i] - hPrev[i]) / dt);
    assert forall i :: 0 <= i < |h| ==> hPrev[i] + r[i] * dt == h[i] by {
      forall i | 0 <= i < |h| ensures hPrev[i] + r[i] * dt == h[i] {
        DivTimes(h[i] - hPrev[i], dt);
      }
    }
    r
  }

  /** Rolling by -1 brings the next point (wrapping to the first) to i; rolling
      by 1 brings the previous one (wrapping to the last). */
  lemma RollByOne(h: seq<real>, i: int)
    requires 0 <= i < |h|
    ensures Roll(h, -1)[i] == h[if i == |h| - 1 then 0 else i + 1]
    ensures Roll(h, 1)[i] == h[if i == 0 then |h| - 1 else i - 1]
  {
    ModOneWrap(i + 1, |h|);
    ModOneWrap(i - 1, |h|);
  }

  /** The slope between the neighbours of a grid point, two grid steps apart. */
  function CentralSlope(next: real, previous: real): real
  {
    (next - previous) / (2.0 * DTheta)
  }

  /** Central difference over the grid. It wraps around: the first point looks
      back at the last, and the last looks ahead at the first. */
  function AngleDerivative(h: seq<real>): (r: seq<real>)
    ensures |r| == |h|
    ensures forall i :: 0 <= i < |h| ==>
      r[i] == CentralSlope(h[if i == |h| - 1 then 0 else i + 1], h[if i == 0 then |h| - 1 else i - 1])
  {
    var n := |h|;
    var r := seq(n, i requires 0 <= i < n => CentralSlope(h[(i + 1) % n], h[(i - 1) % n]));
    assert forall i :: 0 <= i < n ==>
      r[i] == CentralSlope(h[if i == n - 1 then 0 else i + 1], h[if i == 0 then n - 1 else i - 1]) by {
      forall i | 0 <= i < n
        ensures r[i] == CentralSlope(h[if i == n - 1 then 0 else i + 1], h[if i == 0 then n - 1 else i - 1])
      {
        ModOneWrap(i + 1, n);
        ModOneWrap(i - 1, n);
      }
    }
    r
  }

  /** The central difference is the source's `(np.roll(h, -1) - np.roll(h, 1)) / (2 * dtheta)`;
      CentralSlope(next, previous) is exactly `(next - previous) / (2 * dtheta)`. */
  lemma AngleDerivativeByRolls(h: seq<real>)
    ensures forall i :: 0 <= i < |h| ==> AngleDerivative(h)[i] == CentralSlope(Roll(h, -1)[i], Roll(h, 1)[i])
  {
    forall i | 0 <= i < |h|
      ensures AngleDerivative(h)[i] == CentralSlope(Roll(h, -1)[i], Roll(h, 1)[i])
    {
      RollByOne(h, i);
    }
  }

  /** The 2w + 1 values the estimator gathers for grid point i: entry j is
      xs[(i - s) mod |xs|] for the offset s = j - w, as `np.roll(xs, s)` places it. */
  function Window(xs: seq<real>, w: nat, i: int): (r: seq<real>)
    requires |xs| > 0
    ensures |r| == 2 * w + 1
    ensures 0 <= i < |xs| ==> forall j :: 0 <= j < 2 * w + 1 ==> r[j] == Roll(xs, j - w)[i]
  {
    seq(2 * w + 1, j requires 0 <= j < 2 * w + 1 => xs[(i - (j - w)) % |xs|])
  }

  /** The velocity that best fits the samples (a[k], b[k]) of dh/dtheta and dh/dt:
      minus the sum of their products over the sum of the squares of a. */
  function LeastSquaresVelocity(a: seq<real>, b: seq<real>): (v: real)
    requires |a| == |b| && Dot(a, a) != 0.0
    ensures v * Dot(a, a) == -Dot(a, b)
  {
    DivTimes(-Dot(a, b), Dot(a, a));
    -Dot(a, b) / Dot(a, a)
  }

  /** How far velocity u is from satisfying the optical-flow constraint at each sample. */
  function Residual(a: seq<real>, b: seq<real>, u: real): (r: seq<real>)
    requires |a| == |b|
    ensures |r| == |a|
  {
    seq(|a|, k requires 0 <= k < |a| => b[k] + u * a[k])
  }

  // Facts of real arithmetic, each proved apart from any sequence so that the
  // solver sees only the few terms it needs.

  /** One more sample (x, y) adds (y + u x)^2 to the squared residual and x^2,
      x y and y^2 to the three sums of the quadratic. */
  lemma EnergyStep(x: real, y: real, u: real, e: real, rest: real, total: real,
                   bb: real, ab: real, aa: real, b': real, c': real, d': real)
    requires e == y + u * x && rest == Quadratic(b', c', d', u) && total == e * e + rest
    requires bb == y * y + b' && ab == x * y + c' && aa == x * x + d'
    ensures total == Quadratic(bb, ab, aa, u)
  {
  }

  /** One more sample (x, y) adds x (y + u x) to the product of dh/dtheta with the residual. */
  lemma ResidualStep(x: real, y: real, u: real, e: real, rest: real, total: real,
                     ab: real, aa: real, c': real, d': real)
    requires e == y + u * x && rest == Affine(c', d', u) && total == x * e + rest
    requires ab == x * y + c' && aa == x * x + d'
    ensures total == Affine(ab, aa, u)
  {
  }

  lemma ZeroTimes(u: real)
    ensures u * 0.0 == 0.0
  {
  }

  /** A non-zero y makes v the only solution of c * y == x. */
  lemma UniqueSolution(x: real, y: real, v: real, c: real)
    requires y != 0.0 && v * y == x
    ensures v == c <==> c * y == x
  {
    if c * y == x {
      assert (v - c) * y == 0.0;
    }
  }

  lemma RatioOfSingleSamples(a: real, b: real)
    requires a != 0.0
    ensures (-b / a) * (a * a) == -(a * b)
  {
    assert (-b / a) * a == -b;
  }

  /** C + uD: the product of dh/dtheta with the residual of velocity u, given
      C = sum(a * b) and D = sum(a^2). */
  function Affine(C: real, D: real, u: real): real
  {
    C + u * D
  }

  /** B + 2uC + u^2 D: the squared residual of velocity u, given B = sum(b^2),
      C = sum(a * b) and D = sum(a^2). */
  function Quadratic(B: real, C: real, D: real, u: real): real
  {
    B + 2.0 * u * C + u * u * D
  }

  /** The quadratic with D > 0 is least where vD = -C. */
  lemma QuadraticMinimum(B: real, C: real, D: real, u: real, v: real)
    requires D > 0.0 && v * D == -C
    ensures Quadratic(B, C, D, v) <= Quadratic(B, C, D, u)
  {
    var d := u - v;
    assert (B + 2.0 * u * C + u * u * D) - (B + 2.0 * v * C + v * v * D) == D * (d * d);
    assert d * d >= 0.0;
  }

  /** The estimate is the one velocity v with v * sum(a^2) == -sum(a * b). */
  lemma VelocityCharacterized(a: seq<real>, b: seq<real>, c: real)
    requires |a| == |b| && Dot(a, a) != 0.0
    ensures LeastSquaresVelocity(a, b) == c <==> c * Dot(a, a) == -Dot(a, b)
  {
    var v, x, y := LeastSquaresVelocity(a, b), -Dot(a, b), Dot(a, a);
    UniqueSolution(x, y, v, c);
  }

  lemma DotSingle(x: real, y: real)
    ensures Dot([x], [y]) == x * y
  {
    assert [x][1..] == [] && [y][1..] == [];
  }

  lemma {:induction false} DotSelfNonnegative(a: seq<real>)
    ensures Dot(a, a) >= 0.0
  {
    if |a| > 0 {
      DotSelfNonnegative(a[1..]);
    }
  }

  lemma {:induction false} DotZero(a: seq<real>, z: seq<real>)
    requires |a| == |z| && forall k :: 0 <= k < |z| ==> z[k] == 0.0
    ensures Dot(a, z) == 0.0
  {
    if |a| > 0 {
      DotZero(a[1..], z[1..]);
    }
  }

  lemma ResidualTail(a: seq<real>, b: seq<real>, u: real)
    requires |a| == |b| && |a| > 0
    ensures Residual(a, b, u)[0] == b[0] + u * a[0]
    ensures Residual(a, b, u)[1..] == Residual(a[1..], b[1..], u)
  {
    var r, r' := Residual(a, b, u), Residual(a[1..], b[1..], u);
    assert forall k :: 0 <= k < |r'| ==> r[1..][k] == r'[k];
  }

  lemma {:induction false} DotResidual(a: seq<real>, b: seq<real>, u: real)
    requires |a| == |b|
    ensures Dot(a, Residual(a, b, u)) == Affine(Dot(a, b), Dot(a, a), u)
  {
    if |a| > 0 {
      var r, t := Residual(a, b, u), Residual(a[1..], b[1..], u);
      ResidualTail(a, b, u);
      DotResidual(a[1..], b[1..], u);
      ResidualStep(a[0], b[0], u, r[0], Dot(a[1..], t), Dot(a, r),
                   Dot(a, b), Dot(a, a), Dot(a[1..], b[1..]), Dot(a[1..], a[1..]));
    } else {
      ZeroTimes(u);
    }
  }

  /** The squared residual as a quadratic in u. */
  lemma {:induction false} ResidualEnergy(a: seq<real>, b: seq<real>, u: real)
    requires |a| == |b|
    ensures Dot(Residual(a, b, u), Residual(a, b, u)) == Quadratic(Dot(b, b), Dot(a, b), Dot(a, a), u)
  {
    if |a| > 0 {
      var r, t := Residual(a, b, u), Residual(a[1..], b[1..], u);
      ResidualTail(a, b, u);
      ResidualEnergy(a[1..], b[1..], u);
      EnergyStep(a[0], b[0], u, r[0], Dot(t, t), Dot(r, r),
                 Dot(b, b), Dot(a, b), Dot(a, a), Dot(b[1..], b[1..]), Dot(a[1..], b[1..]), Dot(a[1..], a[1..]));
    }
  }

  /** The normal equation: the residual of the estimate is orthogonal to dh/dtheta. */
  lemma NormalEquation(a: seq<real>, b: seq<real>)
    requires |a| == |b| && Dot(a, a) != 0.0
    ensures Dot(a, Residual(a, b, LeastSquaresVelocity(a, b))) == 0.0
  {
    var v := LeastSquaresVelocity(a, b);
    DotResidual(a, b, v);
  }

  /** No other velocity leaves a smaller squared residual. */
  lemma LeastSquaresOptimal(a: seq<real>, b: seq<real>, u: real)
    requires |a| == |b| && Dot(a, a) != 0.0
    ensures var v := LeastSquaresVelocity(a, b);
      Dot(Residual(a, b, v), Residual(a, b, v)) <= Dot(Residual(a, b, u), Residual(a, b, u))
  {
    var v := LeastSquaresVelocity(a, b);
    DotSelfNonnegative(a);
    ResidualEnergy(a, b, u);
    ResidualEnergy(a, b, v);
    QuadraticMinimum(Dot(b, b), Dot(a, b), Dot(a, a), u, v);
  }

  /** When the samples satisfy the constraint exactly for velocity c, the estimate is c. */
  lemma ExactFlowRecovered(a: seq<real>, b: seq<real>, c: real)
    requires |a| == |b| && Dot(a, a) != 0.0
    requires forall k :: 0 <= k < |a| ==> b[k] == -c * a[k]
    ensures LeastSquaresVelocity(a, b) == c
  {
    var r := Residual(a, b, c);
    assert forall k :: 0 <= k < |r| ==> r[k] == 0.0;
    DotZero(a, r);
    DotResidual(a, b, c);
    VelocityCharacterized(a, b, c);
  }

  /** One sample (a, b) with a non-zero energy a * a: a is non-zero and the estimate is -b / a. */
  lemma SingleSampleVelocity(a: real, b: real)
    requires Dot([a], [a]) != 0.0
    ensures a != 0.0
    ensures LeastSquaresVelocity([a], [b]) == -b / a
  {
    DotSingle(a, a);
    DotSingle(a, b);
    RatioOfSingleSamples(a, b);
    VelocityCharacterized([a], [b], -b / a);
  }

  /** With no neighbours (w = 0) the estimate is defined only where dh/dtheta is
      non-zero, and there it is -(dh/dt) / (dh/dtheta) at the point itself. */
  lemma DirectEstimate(slope: seq<real>, rate: seq<real>, i: int)
    requires |slope| == |rate| && 0 <= i < |slope|
    requires Dot(Window(slope, 0, i), Window(slope, 0, i)) != 0.0
    ensures slope[i] != 0.0
    ensures LeastSquaresVelocity(Window(slope, 0, i), Window(rate, 0, i)) == -rate[i] / slope[i]
  {
    ModOneWrap(i, |slope|);
    assert Window(slope, 0, i) == [slope[i]];
    assert Window(rate, 0, i) == [rate[i]];
    SingleSampleVelocity(slope[i], rate[i]);
  }


  lemma ZeroOver(dt: real)
    requires dt != 0.0
    ensures 0.0 / dt == 0.0
  {
  }

  /** The window of an all-zero sequence is all zero. */
  lemma WindowOfZeros(xs: seq<real>, w: nat, i: int)
    requires |xs| > 0 && forall k :: 0 <= k < |xs| ==> xs[k] == 0.0
    ensures forall k :: 0 <= k < 2 * w + 1 ==> Window(xs, w, i)[k] == 0.0
  {
  }

  /** Where dh/dt is zero throughout the window, the estimate is zero. */
  lemma NoChangeNoFlow(a: seq<real>, z: seq<real>)
    requires |a| == |z| && Dot(a, a) != 0.0
    requires forall k :: 0 <= k < |z| ==> z[k] == 0.0
    ensures LeastSquaresVelocity(a, z) == 0.0
  {
    DotZero(a, z);
    VelocityCharacterized(a, z, 0.0);
  }

  /** A curve that did not change has zero estimated velocity wherever the estimate is defined. */
  lemma UnchangedCurveIsStill(h: seq<real>, dt: real, w: nat, i: int)
    requires |h| > 0 && dt != 0.0 && 0 <= i < |h|
    requires Dot(Window(AngleDerivative(h), w, i), Window(AngleDerivative(h), w, i)) != 0.0
    ensures LeastSquaresVelocity(Window(AngleDerivative(h), w, i), Window(TimeDerivative(h, h, dt), w, i)) == 0.0
  {
    var still := TimeDerivative(h, h, dt);
    ZeroOver(dt);
    assert forall k :: 0 <= k < |h| ==> still[k] == 0.0 by {
      forall k | 0 <= k < |h| ensures still[k] == 0.0 {
        assert h[k] - h[k] == 0.0;
      }
    }
    WindowOfZeros(still, w, i);
    NoChangeNoFlow(Window(AngleDerivative(h), w, i), Window(still, w, i));
  }

  /** Columns 0 .. j - 1 of buffer a hold `np.roll(xs, k - w)` for their offset k. */
  ghost predicate HoldsRolls(a: array2<real>, xs: seq<real>, w: nat, j: int)
    reads a
  {
    |xs| == a.Length0 &&
    forall r, k :: 0 <= r < a.Length0 && 0 <= k < j && k < a.Length1 ==> a[r, k] == Roll(xs, k - w)[r]
  }

  /** `a[:, j] = np.roll(xs, j - w)`: fills the next column of a neighbour buffer. */
  method WriteRollColumn(a: array2<real>, xs: seq<real>, w: nat, j: int)
    requires 0 <= j < a.Length1 && HoldsRolls(a, xs, w, j)
    modifies a
    ensures HoldsRolls(a, xs, w, j + 1)
    ensures forall r, k :: 0 <= r < a.Length0 && 0 <= k < a.Length1 && k != j ==> a[r, k] == old(a[r, k])
  {
    var col := Roll(xs, j - w);
    WriteColumn(a, j, col);
    forall r, k | 0 <= r < a.Length0 && 0 <= k < j + 1 && k < a.Length1
      ensures a[r, k] == Roll(xs, k - w)[r]
    {
      if k < j {
        assert a[r, k] == old(a[r, k]);
      }
    }
  }

  /** A buffer whose column k holds `np.roll(xs, k - w)` has, as row r, the window of xs around r. */
  lemma NeighborRows(a: array2<real>, xs: seq<real>, w: nat)
    requires a.Length0 > 0 && a.Length1 == 2 * w + 1 && HoldsRolls(a, xs, w, a.Length1)
    ensures forall r :: 0 <= r < a.Length0 ==> RowOf(a, r) == Window(xs, w, r)
  {
    forall r | 0 <= r < a.Length0
      ensures RowOf(a, r) == Window(xs, w, r)
    {
      assert forall k :: 0 <= k < a.Length1 ==> RowOf(a, r)[k] == Window(xs, w, r)[k];
    }
  }

  /** The least-squares velocity of every row pair of the two neighbour buffers,
      `-np.sum(a * b, axis=1) / np.sum(a ** 2, axis=1)`. */
  method RowVelocities(a: array2<real>, b: array2<real>) returns (v: seq<real>)
    requires a.Length0 == b.Length0 && a.Length1 == b.Length1
    requires forall r :: 0 <= r < a.Length0 ==> Dot(RowOf(a, r), RowOf(a, r)) != 0.0
    ensures |v| == a.Length0
    ensures forall r :: 0 <= r < a.Length0 ==> v[r] == LeastSquaresVelocity(RowOf(a, r), RowOf(b, r))
  {
    v := [];
    for r := 0 to a.Length0
      invariant |v| == r
      invariant forall q :: 0 <= q < r ==> v[q] == LeastSquaresVelocity(RowOf(a, q), RowOf(b, q))
    {
      v := v + [LeastSquaresVelocity(RowOf(a, r), RowOf(b, r))];
    }
  }

  class VelocityEstimator {
    /** The curve of the previous call. */
    var hPrev: seq<real>
    const windowSize: nat

    ghost predicate Valid()
      reads this
    {
      |hPrev| == N
    }

    /** `VelocityEstimator(window_size=16)`: the previous curve starts at zero. */
    constructor (windowSize: nat := 16)
      ensures Valid() && this.windowSize == windowSize
      ensures forall i :: 0 <= i < N ==> hPrev[i] == 0.0
    {
      this.windowSize := windowSize;
      hPrev := seq(N, _ => 0.0);
    }

    /** Gathers, for every grid point, dh/dtheta and dh/dt at the offsets -w..w
        into one column per offset, takes the least-squares velocity of each row,
        and remembers h for the next call. */
    method Estimate(h: seq<real>, dt: real) returns (v: seq<real>)
      requires Valid() && |h| == N && dt != 0.0
      requires forall i :: 0 <= i < N ==>
        Dot(Window(AngleDerivative(h), windowSize, i), Window(AngleDerivative(h), windowSize, i)) != 0.0
      modifies this
      ensures Valid() && hPrev == h
      ensures |v| == N
      ensures forall i :: 0 <= i < N ==>
        v[i] == LeastSquaresVelocity(Window(AngleDerivative(h), windowSize, i),
                                     Window(TimeDerivative(h, old(hPrev), dt), windowSize, i))
    {
      var rate := TimeDerivative(h, hPrev, dt);
      var slope := AngleDerivative(h);
      var w := windowSize;
      var width := 2 * w + 1;
      var slopeNeighbors := new real[N, width];
      var rateNeighbors := new real[N, width];
      for j := 0 to width
        invariant HoldsRolls(slopeNeighbors, slope, w, j) && HoldsRolls(rateNeighbors, rate, w, j)
      {
        WriteRollColumn(slopeNeighbors, slope, w, j);
        WriteRollColumn(rateNeighbors, rate, w, j);
      }
      NeighborRows(slopeNeighbors, slope, w);
      NeighborRows(rateNeighbors, rate, w);
      v := RowVelocities(slopeNeighbors, rateNeighbors);
      hPrev := h;
    }
  }
}
