/** Bookkeeping around a discrete Fourier transform whose magnitudes stay
    abstract: frequency grids in exact arithmetic, the boolean-mask
    truncation `f <= threshold` applied to frequency and magnitude arrays
    alike, and the choice of a dominant bin (numpy `argmax`, first maximum). */
module SpectrumBins {
  import opened Outcomes
  import opened SeqStats

  /** Bin `k` of an `n`-point transform at sampling rate `fs` lies at
      `k * fs / n` (numpy `rfftfreq`, `fftfreq` for non-negative `k`). */
  function Grid(count: nat, n: nat, fs: real): (f: seq<real>)
    requires n > 0
    ensures |f| == count
  {
    seq(count, k requires 0 <= k < count => (k as real) * fs / (n as real))
  }

  predicate StrictlyIncreasing(f: seq<real>)
  {
    forall i, j :: 0 <= i < j < |f| ==> f[i] < f[j]
  }

  predicate NonDecreasing(f: seq<real>)
  {
    forall i, j :: 0 <= i < j < |f| ==> f[i] <= f[j]
  }

  /** Scaled back by the transform length, bin `k` is `k * fs`. */
  lemma GridScaled(count: nat, n: nat, fs: real)
    requires n > 0
    ensures forall k :: 0 <= k < count ==> Grid(count, n, fs)[k] * (n as real) == (k as real) * fs
  {
    var f := Grid(count, n, fs);
    forall k | 0 <= k < count
      ensures f[k] * (n as real) == (k as real) * fs
    {
      var nr := n as real;
      assert f[k] == (k as real) * fs / nr;
    }
  }

  lemma GridStep(k: nat, n: nat, fs: real)
    requires n > 0
    ensures ((k + 1) as real) * fs / (n as real) - (k as real) * fs / (n as real) == fs / (n as real)
  {
    var nr := n as real;
    assert ((k + 1) as real) * fs == (k as real) * fs + fs;
  }

  lemma GridMonotone(i: nat, j: nat, n: nat, fs: real)
    requires n > 0 && i < j && fs > 0.0
    ensures (i as real) * fs / (n as real) < (j as real) * fs / (n as real)
  {
    var nr := n as real;
    assert (j as real) * fs - (i as real) * fs == ((j - i) as real) * fs;
    assert ((j - i) as real) * fs > 0.0;
    assert (j as real) * fs / nr - (i as real) * fs / nr == ((j as real) * fs - (i as real) * fs) / nr;
  }

  /** A grid starts at 0 Hz, is evenly spaced by the resolution `fs / n`,
      and increases strictly for a positive sampling rate. */
  lemma {:induction false} GridShape(count: nat, n: nat, fs: real)
    requires n > 0
    ensures count > 0 ==> Grid(count, n, fs)[0] == 0.0
    ensures forall k :: 0 <= k < count - 1 ==> Grid(count, n, fs)[k + 1] - Grid(count, n, fs)[k] == fs / (n as real)
    ensures fs > 0.0 ==> StrictlyIncreasing(Grid(count, n, fs))
  {
    var f := Grid(count, n, fs);
    forall k | 0 <= k < count - 1
      ensures f[k + 1] - f[k] == fs / (n as real)
    {
      GridStep(k, n, fs);
    }
    if fs > 0.0 {
      forall i, j | 0 <= i < j < count
        ensures f[i] < f[j]
      {
        GridMonotone(i, j, n, fs);
      }
    }
  }

  /** For a positive rate, bins below `n / 2` lie strictly below the Nyquist
      frequency `fs / 2`, and bin `n / 2` of an even `n` lies exactly on it. */
  lemma GridNyquist(k: nat, n: nat, fs: real)
    requires n > 0 && fs > 0.0
    ensures 2 * k < n ==> (k as real) * fs / (n as real) < fs / 2.0
    ensures 2 * k == n ==> (k as real) * fs / (n as real) == fs / 2.0
  {
    var nr := n as real;
    var q := (k as real) * fs / nr;
    assert q * nr == (k as real) * fs;
    if 2 * k < n {
      assert (2 * k) as real < nr;
      assert 2.0 * (k as real) * fs < nr * fs;
      assert 2.0 * q * nr < nr * fs;
    }
    if 2 * k == n {
      assert nr == 2.0 * (k as real);
      assert q * 2.0 * (k as real) == (k as real) * fs;
      assert k > 0;
    }
  }

  /** Parallel frequency and magnitude arrays. */
  datatype Bins = Bins(freq: seq<real>, mag: seq<real>)

  /** `sel = f <= thr; f = f[sel]; mag = mag[sel]`, over positions `from..`. */
  function SelectAtMost(f: seq<real>, mag: seq<real>, thr: real, from: nat): (r: Bins)
    requires |f| == |mag| && from <= |f|
    ensures |r.freq| == |r.mag|
    ensures forall j :: 0 <= j < |r.freq| ==> r.freq[j] <= thr
    decreases |f| - from
  {
    if from == |f| then Bins([], [])
    else
      var rest := SelectAtMost(f, mag, thr, from + 1);
      if f[from] <= thr then Bins([f[from]] + rest.freq, [mag[from]] + rest.mag) else rest
  }

  /** The positions, from `from` on, whose frequency passes the mask. */
  function Kept(f: seq<real>, thr: real, from: nat): (ks: seq<nat>)
    requires from <= |f|
    ensures forall j :: 0 <= j < |ks| ==> from <= ks[j] < |f| && f[ks[j]] <= thr
    ensures forall i :: from <= i < |f| && f[i] <= thr ==> i in ks
    ensures forall j, j' :: 0 <= j < j' < |ks| ==> ks[j] < ks[j']
    decreases |f| - from
  {
    if from == |f| then []
    else if f[from] <= thr then [from] + Kept(f, thr, from + 1)
    else Kept(f, thr, from + 1)
  }

  /** The mask keeps exactly the bins at or below the threshold, in their
      original order, magnitudes paired with their own frequencies. */
  lemma {:induction false} SelectKeepsExactly(f: seq<real>, mag: seq<real>, thr: real, from: nat)
    requires |f| == |mag| && from <= |f|
    ensures var r := SelectAtMost(f, mag, thr, from); var ks := Kept(f, thr, from);
      && |r.freq| == |ks|
      && (forall j :: 0 <= j < |ks| ==> r.freq[j] == f[ks[j]] && r.mag[j] == mag[ks[j]])
    decreases |f| - from
  {
    if from < |f| {
      SelectKeepsExactly(f, mag, thr, from + 1);
      var rest := SelectAtMost(f, mag, thr, from + 1);
      var ks' := Kept(f, thr, from + 1);
      var r := SelectAtMost(f, mag, thr, from);
      var ks := Kept(f, thr, from);
      if f[from] <= thr {
        assert r.freq == [f[from]] + rest.freq && r.mag == [mag[from]] + rest.mag && ks == [from] + ks';
        forall j | 0 <= j < |ks|
          ensures r.freq[j] == f[ks[j]] && r.mag[j] == mag[ks[j]]
        {
          if j > 0 {
            assert r.freq[j] == rest.freq[j - 1] && r.mag[j] == rest.mag[j - 1] && ks[j] == ks'[j - 1];
          }
        }
      } else {
        assert r == rest && ks == ks';
      }
    }
  }

  /** Position of the first bin, from `from` on, above the threshold (or `|f|`). */
  function Cut(f: seq<real>, thr: real, from: nat): (c: nat)
    requires from <= |f|
    ensures from <= c <= |f|
    ensures forall i :: from <= i < c ==> f[i] <= thr
    ensures c < |f| ==> f[c] > thr
    decreases |f| - from
  {
    if from == |f| || f[from] > thr then from else Cut(f, thr, from + 1)
  }

  /** On a non-decreasing grid the mask keeps a prefix: the leading bins up
      to the cut, and every later bin lies above the threshold. */
  lemma {:induction false} SelectIsPrefix(f: seq<real>, mag: seq<real>, thr: real, from: nat)
    requires |f| == |mag| && from <= |f| && NonDecreasing(f)
    ensures var c := Cut(f, thr, from);
      && SelectAtMost(f, mag, thr, from) == Bins(f[from..c], mag[from..c])
      && (forall i :: c <= i < |f| ==> f[i] > thr)
    decreases |f| - from
  {
    var c := Cut(f, thr, from);
    if from < |f| {
      if f[from] > thr {
        EmptyAbove(f, mag, thr, from);
      } else {
        SelectIsPrefix(f, mag, thr, from + 1);
        assert [f[from]] + f[from + 1..c] == f[from..c];
        assert [mag[from]] + mag[from + 1..c] == mag[from..c];
      }
    }
  }

  lemma {:induction false} EmptyAbove(f: seq<real>, mag: seq<real>, thr: real, from: nat)
    requires |f| == |mag| && from <= |f| && NonDecreasing(f)
    requires from < |f| ==> f[from] > thr
    ensures SelectAtMost(f, mag, thr, from) == Bins([], [])
    decreases |f| - from
  {
    if from + 1 < |f| {
      EmptyAbove(f, mag, thr, from + 1);
    }
  }

  /** Index of the largest magnitude ignoring the DC bin (`argmax(mag[1:]) + 1`),
      taken only when there are more than two bins. */
  function DominantSkippingDc(mag: seq<real>): (r: Option<nat>)
    ensures r.None? <==> |mag| <= 2
    ensures r.Some? ==>
      && 1 <= r.value < |mag|
      && (forall j :: 1 <= j < |mag| ==> mag[j] <= mag[r.value])
      && (forall j :: 1 <= j < r.value ==> mag[j] < mag[r.value])
  {
    if |mag| > 2 then Some(ArgMaxFrom(mag, 1)) else None
  }

  /** Index of the largest magnitude over all bins, DC included
      (`argmax(mag)`), when there is any bin. */
  function DominantIncludingDc(mag: seq<real>): (r: Option<nat>)
    ensures r.None? <==> |mag| == 0
    ensures r.Some? ==>
      && r.value < |mag|
      && (forall j :: 0 <= j < |mag| ==> mag[j] <= mag[r.value])
      && (forall j :: 0 <= j < r.value ==> mag[j] < mag[r.value])
  {
    if |mag| > 0 then Some(ArgMaxFrom(mag, 0)) else None
  }
}
