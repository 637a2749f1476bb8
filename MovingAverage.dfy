/**
 * MaFilter: a moving average per channel. The window is a channels-by-slots
 * buffer written one column at a time at a round-robin index, and the output
 * is the mean of every slot of each channel, slots never written counting as 0.
 */
module MovingAverage {
  import opened Numeric

  /** The last n values channel c received, oldest first, padded in front with
      zeros while fewer than n frames have arrived. */
  function Recent(history: seq<seq<real>>, c: int, n: nat): (r: seq<real>)
    requires 0 <= c && forall t :: 0 <= t < |history| ==> c < |history[t]|
    ensures |r| == n
  {
    seq(n, k requires 0 <= k < n => if |history| - n + k >= 0 then history[|history| - n + k][c] else 0.0)
  }

  /** Receiving frame x shifts channel c's window by one: slot k of the new window
      holds what slot k + 1 of the old one held, and the last slot holds x[c]. */
  lemma RecentAppend(history: seq<seq<real>>, x: seq<real>, c: int, n: nat, k: int)
    requires 0 <= c < |x| && forall t :: 0 <= t < |history| ==> c < |history[t]|
    requires 0 <= k < n
    ensures forall t :: 0 <= t < |history + [x]| ==> c < |(history + [x])[t]|
    ensures Recent(history + [x], c, n)[k] == if k == n - 1 then x[c] else Recent(history, c, n)[k + 1]
  {
    var h := history + [x];
    assert forall t :: 0 <= t < |history| ==> h[t] == history[t];
  }

  /** Where channel c's window sits in the buffer: slot j holds the entry that the
      next write index i, counted as the oldest, turns into window position (j - i) mod n. */
  lemma SlotAfterWrite(history: seq<seq<real>>, x: seq<real>, c: int, n: nat, i: int, j: int)
    requires 0 <= c < |x| && forall t :: 0 <= t < |history| ==> c < |history[t]|
    requires 0 <= i < n && 0 <= j < n
    ensures forall t :: 0 <= t < |history + [x]| ==> c < |(history + [x])[t]|
    ensures Recent(history + [x], c, n)[(j - (i + 1) % n) % n]
         == if j == i then x[c] else Recent(history, c, n)[(j - i) % n]
  {
    ModOneWrap(i + 1, n);
    var i' := (i + 1) % n;
    ModOneWrap(j - i', n);
    ModOneWrap(j - i, n);
    RecentAppend(history, x, c, n, (j - i') % n);
  }

  /** The mean of n values whose sum is that of row: n copies of it add up to the sum. */
  function Mean(row: seq<real>, n: nat): (m: real)
    requires n > 0
    ensures m * n as real == Sum(row)
  {
    DivTimes(Sum(row), n as real);
    Sum(row) / n as real
  }

  /** Each row c of the buffer is channel c's window of the last n values,
      rotated so that the oldest sits at index i. */
  ghost predicate Rotated(a: array2<real>, history: seq<seq<real>>, n: nat, i: int)
    requires n == a.Length1 && forall t :: 0 <= t < |history| ==> |history[t]| == a.Length0
    reads a
  {
    forall c, j :: 0 <= c < a.Length0 && 0 <= j < n ==> a[c, j] == Recent(history, c, n)[(j - i) % n]
  }

  class MaFilter {
    const nChannels: nat
    const nSamples: nat
    var samples: array2<real>
    /** The column the next frame is written to. */
    var i: nat
    /** Every frame received so far, oldest first. */
    ghost var history: seq<seq<real>>

    /** The buffer holds each channel's last nSamples values, rotated so that the
        oldest sits at the write index. */
    ghost predicate Valid()
      reads this, samples
    {
      samples.Length0 == nChannels && samples.Length1 == nSamples &&
      (forall t :: 0 <= t < |history| ==> |history[t]| == nChannels) &&
      (nSamples == 0 ==> i == 0 && history == []) &&
      (nSamples > 0 ==>
        i == |history| % nSamples && Rotated(samples, history, nSamples, i))
    }

    /** The mean over every slot of each channel (`np.mean(samples, axis=1)`):
        nSamples copies of a channel's mean add up to the sum of its row. */
    function ChannelMeans(): (means: seq<real>)
      requires nSamples > 0 && samples.Length0 == nChannels
      reads this, samples
      ensures |means| == nChannels
      ensures forall c :: 0 <= c < nChannels ==> means[c] * nSamples as real == Sum(RowOf(samples, c))
    {
      var a := samples;
      seq(nChannels, c requires 0 <= c < a.Length0 reads a => Mean(RowOf(a, c), nSamples))
    }

    /** `MaFilter(n_channels=360, n_samples=4)`: an all-zero window and index 0. */
    constructor (nChannels: nat := 360, nSamples: nat := 4)
      ensures Valid() && fresh(samples)
      ensures this.nChannels == nChannels && this.nSamples == nSamples
      ensures i == 0 && history == []
      ensures forall c, j :: 0 <= c < nChannels && 0 <= j < nSamples ==> samples[c, j] == 0.0
    {
      this.nChannels := nChannels;
      this.nSamples := nSamples;
      samples := new real[nChannels, nSamples]((_, _) => 0.0);
      i := 0;
      history := [];
    }

    /** Writes frame x into column i of every channel, advances i round-robin and
        returns each channel's mean, which is the mean of the last nSamples
        frames on that channel, zero-padded. The source fails on an empty window. */
    method Filter(x: seq<real>) returns (y: seq<real>)
      requires Valid() && nSamples > 0 && |x| == nChannels
      modifies this, samples
      ensures Valid() && samples == old(samples)
      ensures history == old(history) + [x]
      ensures i == (old(i) + 1) % nSamples
      ensures forall c :: 0 <= c < nChannels ==> samples[c, old(i)] == x[c]
      ensures forall c, j :: 0 <= c < nChannels && 0 <= j < nSamples && j != old(i) ==>
        samples[c, j] == old(samples[c, j])
      ensures y == ChannelMeans()
      ensures forall c :: 0 <= c < nChannels ==> y[c] == Sum(Recent(history, c, nSamples)) / nSamples as real
    {
      Record(x);
      y := ChannelMeans();
      forall c | 0 <= c < nChannels
        ensures y[c] == Sum(Recent(history, c, nSamples)) / nSamples as real
      {
        WindowSum(c);
      }
    }

    /** The state change of Filter: column i takes frame x, and i moves on. */
    method Record(x: seq<real>)
      requires Valid() && nSamples > 0 && |x| == nChannels
      modifies this, samples
      ensures Valid() && samples == old(samples)
      ensures history == old(history) + [x]
      ensures i == (old(i) + 1) % nSamples
      ensures forall c :: 0 <= c < nChannels ==> samples[c, old(i)] == x[c]
      ensures forall c, j :: 0 <= c < nChannels && 0 <= j < nSamples && j != old(i) ==>
        samples[c, j] == old(samples[c, j])
    {
      var n, a, wrote := nSamples, samples, i;
      ghost var before := history;
      ghost var after := before + [x];
      WriteColumn(a, wrote, x);
      ModSucc(|before|, n);
      var next := (wrote + 1) % n;
      forall c, j | 0 <= c < nChannels && 0 <= j < n
        ensures a[c, j] == Recent(after, c, n)[(j - next) % n]
      {
        SlotAfterWrite(before, x, c, n, wrote, j);
        if j == wrote {
          assert a[c, j] == x[c];
        } else {
          assert a[c, j] == old(a[c, j]) == Recent(before, c, n)[(j - wrote) % n];
        }
      }
      assert Rotated(a, after, n, next);
      i := next;
      history := after;
    }

    /** A channel's row is its recent window rotated to the write index, so the
        two have the same sum. */
    lemma WindowSum(c: int)
      requires Valid() && nSamples > 0 && 0 <= c < nChannels
      ensures Sum(RowOf(samples, c)) == Sum(Recent(history, c, nSamples))
    {
      var w := Recent(history, c, nSamples);
      assert RowOf(samples, c) == Roll(w, i);
      RollSum(w, i);
    }
  }
}
