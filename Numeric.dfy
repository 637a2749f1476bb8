/**
 * The array primitives the signal-processing classes lean on, over exact reals:
 * NumPy's `roll` on one axis, sums and dot products along a row, and the
 * in-place write of one column of a two-dimensional buffer (`a[:, j] = col`).
 */
module Numeric {

  /** `np.roll(s, shift)`: element k of the result is s[(k - shift) mod |s|], so
      every element moves shift places along, wrapping around the end.
      Dafny's `%` with a positive divisor is the floor modulo Python uses. */
  function Roll<T>(s: seq<T>, shift: int): (r: seq<T>)
    ensures |r| == |s|
    ensures multiset(r) == multiset(s)
  {
    if |s| == 0 then []
    else
      var n, k := |s|, shift % |s|;
      var r := seq(n, j requires 0 <= j < n => s[(j - shift) % n]);
      assert r == s[n - k..] + s[..n - k] by {
        forall j | 0 <= j < n ensures r[j] == (s[n - k..] + s[..n - k])[j] {
          RotateIndex(j, shift, n);
        }
      }
      assert s == s[..n - k] + s[n - k..];
      r
  }

  lemma MulNonneg(x: int, n: int)
    requires x >= 0 && n > 0
    ensures x * n >= 0
  {
  }

  lemma MulBound(x: int, n: int)
    requires n > 0
    ensures x >= 1 ==> x * n >= n
    ensures x <= -1 ==> x * n <= -n
  {
    if x >= 1 {
      assert x * n == (x - 1) * n + n;
      MulNonneg(x - 1, n);
    }
    if x <= -1 {
      assert x * n == (x + 1) * n - n;
      MulNonneg(-(x + 1), n);
      assert -(x + 1) * n == -((x + 1) * n);
    }
  }

  /** A remainder is fixed by any quotient-remainder split of its numerator. */
  lemma ModUnique(a: int, n: int, q: int, r: int)
    requires n > 0 && a == q * n + r && 0 <= r < n
    ensures a % n == r
  {
    var q0, r0 := a / n, a % n;
    assert (q - q0) * n == q * n - q0 * n;
    assert (q - q0) * n == r0 - r;
    MulBound(q - q0, n);
  }

  /** Where a rotation by shift reads index j from: behind j by shift mod n, wrapping. */
  lemma RotateIndex(j: int, shift: int, n: int)
    requires 0 <= j < n
    ensures (j - shift) % n == if j < shift % n then j - shift % n + n else j - shift % n
  {
    var k := shift % n;
    var q := shift / n;
    var t := j - k;
    ModOneWrap(t, n);
    ModUnique(j - shift, n, -q + (if t < 0 then -1 else 0), t % n);
  }

  /** The two values a remainder takes when its numerator is within one period of [0, n). */
  lemma ModOneWrap(a: int, n: int)
    requires n > 0 && -n <= a < 2 * n
    ensures a % n == if a < 0 then a + n else if a < n then a else a - n
  {
    var e := if a < 0 then -1 else if a < n then 0 else 1;
    ModUnique(a, n, e, a - e * n);
  }

  /** Advancing a remainder by one and reducing again is the remainder of the successor. */
  lemma ModSucc(a: int, n: int)
    requires n > 0
    ensures (a % n + 1) % n == (a + 1) % n
  {
    var q := a / n;
    if a % n + 1 < n {
      ModUnique(a % n + 1, n, 0, a % n + 1);
      ModUnique(a + 1, n, q, a % n + 1);
    } else {
      ModUnique(a % n + 1, n, 1, 0);
      assert a + 1 == (q + 1) * n;
      ModUnique(a + 1, n, q + 1, 0);
    }
  }

  /** Rolling left by n moves row k + n to row k: the rows that survive are s[n..]. */
  lemma RollLeftPrefix<T>(s: seq<T>, n: int)
    requires 0 <= n <= |s|
    ensures Roll(s, -n)[..|s| - n] == s[n..]
  {
    var r := Roll(s, -n);
    forall k | 0 <= k < |s| - n
      ensures r[k] == s[n + k]
    {
      ModOneWrap(k + n, |s|);
    }
  }

  /** Rolling right by k, 0 <= k < |s|, puts the last k elements in front. */
  lemma RollRightSplit<T>(s: seq<T>, k: int)
    requires 0 <= k < |s|
    ensures Roll(s, k) == s[|s| - k..] + s[..|s| - k]
  {
    var r := Roll(s, k);
    var c := s[|s| - k..] + s[..|s| - k];
    forall j | 0 <= j < |s|
      ensures r[j] == c[j]
    {
      ModOneWrap(j - k, |s|);
    }
  }

  /** Dividing by a non-zero y and multiplying back by y returns x. */
  lemma DivTimes(x: real, y: real)
    requires y != 0.0
    ensures (x / y) * y == x
  {
  }

  /** The sum of a sequence of reals (`np.sum` along one axis). */
  function Sum(s: seq<real>): real
  {
    if |s| == 0 then 0.0 else s[0] + Sum(s[1..])
  }

  lemma {:induction false} SumConcat(a: seq<real>, b: seq<real>)
    ensures Sum(a + b) == Sum(a) + Sum(b)
  {
    if |a| == 0 {
      assert a + b == b;
    } else {
      assert (a + b)[1..] == a[1..] + b;
      SumConcat(a[1..], b);
    }
  }

  /** A circular shift does not change the sum. */
  lemma RollSum(s: seq<real>, k: int)
    requires 0 <= k < |s|
    ensures Sum(Roll(s, k)) == Sum(s)
  {
    RollRightSplit(s, k);
    SumConcat(s[|s| - k..], s[..|s| - k]);
    SumConcat(s[..|s| - k], s[|s| - k..]);
    assert s[..|s| - k] + s[|s| - k..] == s;
  }

  /** The dot product of two rows of equal length. */
  function Dot(a: seq<real>, b: seq<real>): real
    requires |a| == |b|
  {
    if |a| == 0 then 0.0 else a[0] * b[0] + Dot(a[1..], b[1..])
  }

  /** Row r of a two-dimensional buffer. */
  function RowOf(a: array2<real>, r: int): (row: seq<real>)
    requires 0 <= r < a.Length0
    reads a
    ensures |row| == a.Length1
    ensures forall k :: 0 <= k < a.Length1 ==> row[k] == a[r, k]
  {
    seq(a.Length1, k requires 0 <= k < a.Length1 reads a => a[r, k])
  }

  /** `a[:, j] = col`: overwrites column j and leaves every other column as it was. */
  method WriteColumn(a: array2<real>, j: int, col: seq<real>)
    requires 0 <= j < a.Length1 && |col| == a.Length0
    modifies a
    ensures forall r :: 0 <= r < a.Length0 ==> a[r, j] == col[r]
    ensures forall r, k :: 0 <= r < a.Length0 && 0 <= k < a.Length1 && k != j ==> a[r, k] == old(a[r, k])
  {
    for r := 0 to a.Length0
      invariant forall r' :: 0 <= r' < r ==> a[r', j] == col[r']
      invariant forall r', k :: 0 <= r' < a.Length0 && 0 <= k < a.Length1 && (k != j || r' >= r) ==> a[r', k] == old(a[r', k])
    {
      a[r, j] := col[r];
    }
  }
}
