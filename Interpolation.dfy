/**
 * The Interpolator: a first-in-first-out buffer of (angle, distance) rows fed
 * in batches, and the preparation `take` does before fitting a smoothing
 * spline: sort the rows by angle and keep one row per distinct angle, so that
 * the angles handed to the fit are strictly increasing.
 */
module Interpolation {
  import opened Numeric

  /** One row of the buffer: an angle and the distance measured at it. */
  datatype Sample = Sample(angle: real, distance: real)

  function Angles(s: seq<Sample>): (r: seq<real>)
    ensures |r| == |s| && forall k :: 0 <= k < |s| ==> r[k] == s[k].angle
  {
    seq(|s|, k requires 0 <= k < |s| => s[k].angle)
  }

  /** The set of angles that occur in a sequence of rows. */
  function AngleSet(s: seq<Sample>): set<real>
  {
    set x | x in s :: x.angle
  }

  /** Two parallel columns put back together as rows. */
  function Rows(angles: seq<real>, distances: seq<real>): (r: seq<Sample>)
    requires |angles| == |distances|
    ensures |r| == |angles|
    ensures forall k :: 0 <= k < |r| ==> r[k].angle == angles[k] && r[k].distance == distances[k]
  {
    seq(|angles|, k requires 0 <= k < |angles| => Sample(angles[k], distances[k]))
  }

  ghost predicate SortedByAngle(s: seq<Sample>)
  {
    forall i, j :: 0 <= i <= j < |s| ==> s[i].angle <= s[j].angle
  }

  ghost predicate StrictlyIncreasing(xs: seq<real>)
  {
    forall i, j :: 0 <= i < j < |xs| ==> xs[i] < xs[j]
  }

  /** What `take` gets from `argsort`: the rows reordered so that the angles do not decrease. */
  ghost predicate IsSortedPermutation(p: seq<Sample>, s: seq<Sample>)
  {
    SortedByAngle(p) && multiset(p) == multiset(s)
  }

  /** No earlier row carries the angle of row k. */
  ghost predicate FirstOccurrence(s: seq<Sample>, k: int)
    requires 0 <= k < |s|
  {
    forall m :: 0 <= m < k ==> s[m].angle != s[k].angle
  }

  function Insert(x: Sample, s: seq<Sample>): (r: seq<Sample>)
    requires SortedByAngle(s)
    ensures multiset(r) == multiset(s) + multiset{x}
    ensures SortedByAngle(r)
  {
    if |s| == 0 then [x]
    else if x.angle <= s[0].angle then [x] + s
    else
      var t := Insert(x, s[1..]);
      assert s == [s[0]] + s[1..];
      InsertBehindHead(x, s, t);
      [s[0]] + t
  }

  /** The step of Insert that keeps the head: everything behind it is no smaller. */
  lemma InsertBehindHead(x: Sample, s: seq<Sample>, t: seq<Sample>)
    requires |s| >= 1 && SortedByAngle(s) && s[0].angle < x.angle
    requires SortedByAngle(t) && multiset(t) == multiset(s[1..]) + multiset{x}
    ensures SortedByAngle([s[0]] + t)
  {
    var r := [s[0]] + t;
    forall j | 0 <= j < |t| ensures s[0].angle <= t[j].angle {
      assert t[j] in multiset(t);
      if t[j] != x {
        assert t[j] in s[1..];
      }
    }
    forall i, j | 0 <= i <= j < |r| ensures r[i].angle <= r[j].angle {
      if i > 0 {
        assert r[i] == t[i - 1] && r[j] == t[j - 1];
      } else if j > 0 {
        assert r[j] == t[j - 1];
      }
    }
  }

  /** A sort by angle. `np.argsort` stands behind it in the source; it uses an
      unstable sort, so nothing about this model relies on how equal angles
      are ordered here, only on the contract below. */
  function SortByAngle(s: seq<Sample>): (r: seq<Sample>)
    ensures IsSortedPermutation(r, s)
  {
    if |s| == 0 then []
    else
      assert s == [s[0]] + s[1..];
      Insert(s[0], SortByAngle(s[1..]))
  }

  /** The rows the deduplication loop of `take` keeps: the first row, and every
      row whose angle differs from the one before it. */
  function Dedup(s: seq<Sample>): (r: seq<Sample>)
    requires |s| >= 1
    ensures 1 <= |r| <= |s|
    ensures r[0] == s[0]
    ensures r[|r| - 1].angle == s[|s| - 1].angle
  {
    if |s| == 1 then [s[0]]
    else
      var prefix := Dedup(s[..|s| - 1]);
      if s[|s| - 2].angle != s[|s| - 1].angle then prefix + [s[|s| - 1]] else prefix
  }

  /** Deduplicating sorted rows leaves strictly increasing angles, the input
      the smoothing-spline fit requires. */
  lemma {:induction false} DedupStrictlyIncreasing(s: seq<Sample>)
    requires |s| >= 1 && SortedByAngle(s)
    ensures StrictlyIncreasing(Angles(Dedup(s)))
  {
    if |s| > 1 {
      var p := s[..|s| - 1];
      assert SortedByAngle(p);
      DedupStrictlyIncreasing(p);
      var d := Dedup(p);
      if s[|s| - 2].angle != s[|s| - 1].angle {
        var r := Dedup(s);
        assert r == d + [s[|s| - 1]];
        forall i, j | 0 <= i < j < |r| ensures r[i].angle < r[j].angle {
          if j == |r| - 1 && i < j {
            assert r[i].angle <= d[|d| - 1].angle by {
              if i < |d| - 1 {
                assert Angles(d)[i] < Angles(d)[|d| - 1];
              }
            }
          } else {
            assert Angles(d)[i] < Angles(d)[j];
          }
        }
      }
    }
  }

  /** Every angle of the input survives, and no other appears. */
  lemma {:induction false} DedupAngleSet(s: seq<Sample>)
    requires |s| >= 1
    ensures AngleSet(Dedup(s)) == AngleSet(s)
  {
    if |s| > 1 {
      var p := s[..|s| - 1];
      var last := s[|s| - 1];
      DedupAngleSet(p);
      assert s == p + [last];
      assert AngleSet(s) == AngleSet(p) + {last.angle};
      if s[|s| - 2].angle != last.angle {
        assert AngleSet(Dedup(p) + [last]) == AngleSet(Dedup(p)) + {last.angle};
      } else {
        assert last.angle in AngleSet(p) by { assert p[|s| - 2] in p; }
      }
    }
  }

  /** Every kept row is a row of the input, with its own distance: the output is a sub-multiset. */
  lemma {:induction false} DedupSubMultiset(s: seq<Sample>)
    requires |s| >= 1
    ensures multiset(Dedup(s)) <= multiset(s)
  {
    if |s| > 1 {
      var p := s[..|s| - 1];
      DedupSubMultiset(p);
      assert s == p + [s[|s| - 1]];
    }
  }

  /** Row x is the first row of s that carries its angle. */
  ghost predicate FirstRowOf(s: seq<Sample>, x: Sample)
  {
    exists k :: 0 <= k < |s| && s[k] == x && FirstOccurrence(s, k)
  }

  lemma FirstRowOfExtend(p: seq<Sample>, y: Sample, x: Sample)
    requires FirstRowOf(p, x)
    ensures FirstRowOf(p + [y], x)
  {
    var k :| 0 <= k < |p| && p[k] == x && FirstOccurrence(p, k);
    assert (p + [y])[k] == x;
    assert FirstOccurrence(p + [y], k);
  }

  /** On sorted rows, a last row whose angle differs from its predecessor's is
      the first row with that angle. */
  lemma NewAngleIsFirst(s: seq<Sample>)
    requires |s| >= 2 && SortedByAngle(s) && s[|s| - 2].angle != s[|s| - 1].angle
    ensures FirstRowOf(s, s[|s| - 1])
  {
    var n := |s|;
    forall m | 0 <= m < n - 1 ensures s[m].angle != s[n - 1].angle {
      assert s[m].angle <= s[n - 2].angle;
    }
    assert FirstOccurrence(s, n - 1);
  }

  /** Every row kept from the rows before the last is still the first row with
      its angle once the last row is added, and so is the last row if kept. */
  lemma FirstRowsStep(s: seq<Sample>, p: seq<Sample>)
    requires |s| >= 2 && SortedByAngle(s) && p == s[..|s| - 1]
    requires forall j :: 0 <= j < |Dedup(p)| ==> FirstRowOf(p, Dedup(p)[j])
    ensures forall j :: 0 <= j < |Dedup(s)| ==> FirstRowOf(s, Dedup(s)[j])
  {
    var n := |s|;
    var r := Dedup(s);
    var d := Dedup(p);
    assert s == p + [s[n - 1]];
    if s[n - 2].angle != s[n - 1].angle {
      NewAngleIsFirst(s);
    }
    forall j | 0 <= j < |r| ensures FirstRowOf(s, r[j]) {
      if j < |d| {
        assert r[j] == d[j];
        FirstRowOfExtend(p, s[n - 1], d[j]);
      }
    }
  }

  /** On sorted rows, the row kept for each angle is the first row with that angle. */
  lemma {:induction false} DedupKeepsFirstOccurrence(s: seq<Sample>)
    requires |s| >= 1 && SortedByAngle(s)
    ensures forall j :: 0 <= j < |Dedup(s)| ==> FirstRowOf(s, Dedup(s)[j])
  {
    var n := |s|;
    if n == 1 {
      assert s[0] == Dedup(s)[0] && FirstOccurrence(s, 0);
    } else {
      assert SortedByAngle(s[..n - 1]);
      DedupKeepsFirstOccurrence(s[..n - 1]);
      FirstRowsStep(s, s[..n - 1]);
    }
  }

  lemma HeadIsMember(xs: seq<real>)
    ensures |xs| > 0 ==> xs[0] in xs
  {
  }

  lemma HeadIsLeast(xs: seq<real>, k: int)
    requires StrictlyIncreasing(xs) && 0 <= k < |xs|
    ensures xs[0] <= xs[k]
  {
  }

  /** Two strictly increasing sequences with the same elements are equal. */
  lemma {:induction false} StrictlyIncreasingUnique(xs: seq<real>, ys: seq<real>)
    requires StrictlyIncreasing(xs) && StrictlyIncreasing(ys)
    requires forall a :: a in xs <==> a in ys
    ensures xs == ys
  {
    if |xs| == 0 || |ys| == 0 {
      HeadIsMember(xs);
      HeadIsMember(ys);
    } else {
      assert xs[0] in xs;
      assert xs[0] in ys;
      assert |ys| > 0;
      assert ys[0] in xs;
      assert xs[0] == ys[0] by {
        var i :| 0 <= i < |ys| && ys[i] == xs[0];
        var j :| 0 <= j < |xs| && xs[j] == ys[0];
        HeadIsLeast(ys, i);
        HeadIsLeast(xs, j);
      }
      forall a ensures a in xs[1..] <==> a in ys[1..] {
        if a in xs[1..] {
          var i :| 1 <= i < |xs| && xs[i] == a;
          assert a in ys;
          assert a != ys[0];
        }
        if a in ys[1..] {
          var i :| 1 <= i < |ys| && ys[i] == a;
          assert a in xs;
          assert a != xs[0];
        }
      }
      StrictlyIncreasingUnique(xs[1..], ys[1..]);
      assert xs == [xs[0]] + xs[1..] && ys == [ys[0]] + ys[1..];
    }
  }

  /** Which of several equal angles the unstable sort puts first may change the
      distances kept, but never the angles: any two sorted orders of the same
      rows deduplicate to the same angle sequence. */
  lemma DedupAnglesDetermined(p: seq<Sample>, q: seq<Sample>)
    requires |p| >= 1 && SortedByAngle(p) && SortedByAngle(q)
    requires multiset(p) == multiset(q)
    ensures |q| >= 1 && Angles(Dedup(p)) == Angles(Dedup(q))
  {
    assert |q| == |multiset(q)| == |multiset(p)| == |p|;
    assert forall x :: x in p <==> x in q by {
      forall x ensures x in p <==> x in q {
        assert x in p <==> x in multiset(p);
      }
    }
    assert AngleSet(p) == AngleSet(q);
    DedupAngleSet(p);
    DedupAngleSet(q);
    DedupStrictlyIncreasing(p);
    DedupStrictlyIncreasing(q);
    var a, b := Angles(Dedup(p)), Angles(Dedup(q));
    forall x ensures x in a <==> x in b {
      AnglesInAngleSet(Dedup(p), x);
      AnglesInAngleSet(Dedup(q), x);
    }
    StrictlyIncreasingUnique(a, b);
  }

  lemma AnglesInAngleSet(s: seq<Sample>, a: real)
    ensures a in Angles(s) <==> a in AngleSet(s)
  {
    if a in AngleSet(s) {
      var x :| x in s && x.angle == a;
      var k :| 0 <= k < |s| && s[k] == x;
      assert Angles(s)[k] == a;
    }
  }

  /** One turn of the deduplication loop. */
  lemma DedupStep(s: seq<Sample>, i: int)
    requires 1 <= i < |s|
    ensures Dedup(s[..i + 1]) == Dedup(s[..i]) + if s[i - 1].angle != s[i].angle then [s[i]] else []
  {
    assert s[..i + 1][..i] == s[..i];
  }

  /** What `take` hands to the fit, for whichever sorted order `argsort` picks. */
  lemma DedupOfSortedPermutation(m: seq<Sample>, p: seq<Sample>)
    requires |m| >= 1 && IsSortedPermutation(p, m)
    ensures |p| >= 1
    ensures StrictlyIncreasing(Angles(Dedup(p)))
    ensures forall a :: a in Angles(Dedup(p)) <==> a in AngleSet(m)
    ensures forall x :: x in Dedup(p) ==> x in m
  {
    assert |p| == |multiset(p)| == |m|;
    DedupStrictlyIncreasing(p);
    DedupAngleSet(p);
    assert AngleSet(p) == AngleSet(m) by {
      forall x ensures x in p <==> x in m {
        assert x in p <==> x in multiset(p);
      }
    }
    forall a ensures a in Angles(Dedup(p)) <==> a in AngleSet(m) {
      AnglesInAngleSet(Dedup(p), a);
    }
    DedupSubMultiset(p);
    forall x | x in Dedup(p) ensures x in m {
      assert x in multiset(Dedup(p));
    }
  }

  /** The loop of `take` that builds `angles_dedup` and `distances_dedup` by appending. */
  method DedupColumns(sorted: seq<Sample>) returns (angles: seq<real>, distances: seq<real>)
    requires |sorted| >= 1
    ensures |angles| == |distances|
    ensures Rows(angles, distances) == Dedup(sorted)
  {
    angles := [sorted[0].angle];
    distances := [sorted[0].distance];
    for i := 1 to |sorted|
      invariant |angles| == |distances|
      invariant Rows(angles, distances) == Dedup(sorted[..i])
    {
      DedupStep(sorted, i);
      if sorted[i - 1].angle != sorted[i].angle {
        angles := angles + [sorted[i].angle];
        distances := distances + [sorted[i].distance];
      }
    }
    assert sorted[..|sorted|] == sorted;
  }

  /** The last c rows of a stream, oldest first, padded in front with (0, 0)
      rows while fewer than c have arrived. */
  function Newest(received: seq<Sample>, c: nat): (r: seq<Sample>)
    ensures |r| == c
  {
    seq(c, k requires 0 <= k < c =>
      if |received| - c + k >= 0 then received[|received| - c + k] else Sample(0.0, 0.0))
  }

  /** A batch of 1 .. c rows pushes the oldest |s| rows out of the last c. */
  lemma NewestAppend(received: seq<Sample>, s: seq<Sample>, c: nat)
    requires 1 <= |s| <= c
    ensures Newest(received + s, c) == Newest(received, c)[|s|..] + s
  {
    var before, after := Newest(received, c), Newest(received + s, c);
    var expected := before[|s|..] + s;
    forall k | 0 <= k < c
      ensures after[k] == expected[k]
    {
      var t := |received| + |s| - c + k;
      if k < c - |s| {
        assert expected[k] == before[k + |s|];
        if t >= 0 {
          assert (received + s)[t] == received[t];
        }
      } else {
        assert expected[k] == s[k - (c - |s|)];
        assert (received + s)[t] == s[t - |received|];
      }
    }
  }

  /** `np.roll(rows, -len(batch), axis=0)` into a new buffer, whose tail is then
      overwritten with the batch. */
  method ShiftIn(rows: seq<Sample>, batch: seq<Sample>) returns (next: array<Sample>)
    requires 1 <= |batch| <= |rows|
    ensures fresh(next)
    ensures next[..] == rows[|batch|..] + batch
  {
    var n := |rows|;
    var rolled := Roll(rows, -|batch|);
    next := new Sample[n](k requires 0 <= k < n => rolled[k]);
    for j := 0 to |batch|
      invariant next[..n - |batch|] == rolled[..n - |batch|]
      invariant forall k :: 0 <= k < j ==> next[n - |batch| + k] == batch[k]
    {
      next[n - |batch| + j] := batch[j];
    }
    RollLeftPrefix(rows, |batch|);
    assert next[..] == next[..n - |batch|] + next[n - |batch|..];
    assert next[n - |batch|..] == batch;
  }

  class Interpolator {
    /** The number of rows the buffer holds, fixed at construction. */
    const capacity: nat
    /** The smoothing parameter of the spline fit; kept, not used by this model. */
    const lam: real
    var memory: array<Sample>
    /** Every row passed to Update so far, oldest first. */
    ghost var received: seq<Sample>

    /** The buffer holds the newest capacity rows received, (0, 0) where none arrived yet. */
    ghost predicate Valid()
      reads this, memory
    {
      memory.Length == capacity && memory[..] == Newest(received, capacity)
    }

    /** `Interpolator(memory_size=512, lam=1e-3)`: every row starts as (0, 0). */
    constructor (memorySize: nat := 512, lam: real := 0.001)
      ensures Valid() && fresh(memory)
      ensures capacity == memorySize && this.lam == lam
      ensures received == []
      ensures forall k :: 0 <= k < memory.Length ==> memory[k] == Sample(0.0, 0.0)
    {
      capacity := memorySize;
      this.lam := lam;
      memory := new Sample[memorySize](_ => Sample(0.0, 0.0));
      received := [];
    }

    /** Rolls the buffer left by the batch length, then overwrites its tail with
        the batch: the oldest |samples| rows are evicted. On a buffer of at least
        one row the source raises on an empty batch or one longer than the
        buffer. On a zero-row buffer, a batch of zero rows or one row is
        accepted (NumPy rolls an empty axis as a no-op and broadcasts one row
        onto none) and the buffer stays empty. */
    method Update(samples: seq<Sample>)
      requires Valid()
      requires 1 <= |samples| <= capacity || (capacity == 0 && |samples| <= 1)
      modifies this
      ensures Valid() && fresh(memory)
      ensures received == old(received) + samples
      ensures capacity == 0 ==> memory[..] == []
      ensures capacity >= 1 ==> memory[..] == old(memory[..])[|samples|..] + samples
    {
      if capacity == 0 {
        memory := new Sample[0];
      } else {
        var oldRows := memory[..];
        memory := ShiftIn(oldRows, samples);
        NewestAppend(received, samples, capacity);
      }
      received := received + samples;
    }

    /** The rows `take` hands to the spline fit, as two parallel columns: the
        rows of some sorting of the buffer by angle, deduplicated. */
    method Take() returns (angles: seq<real>, distances: seq<real>)
      requires Valid() && capacity >= 1
      ensures |angles| == |distances| >= 1
      ensures exists p :: IsSortedPermutation(p, memory[..]) && |p| >= 1 && Rows(angles, distances) == Dedup(p)
      ensures StrictlyIncreasing(angles)
      ensures forall a :: a in angles <==> a in AngleSet(memory[..])
      ensures forall k :: 0 <= k < |angles| ==> Sample(angles[k], distances[k]) in memory[..]
    {
      var sorted := SortByAngle(memory[..]);
      assert |sorted| == |multiset(sorted)| == memory.Length;
      angles, distances := DedupColumns(sorted);
      DedupOfSortedPermutation(memory[..], sorted);
      var rows := Rows(angles, distances);
      assert Angles(rows) == angles;
      forall k | 0 <= k < |angles| ensures Sample(angles[k], distances[k]) in memory[..] {
        assert rows[k] in rows;
      }
    }
  }
}
