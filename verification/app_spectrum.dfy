/** The spectrum helpers of the top-level dashboard application: the
    windowed-rfft `_fft_mag(wave, fs, fmax)`, its inline copy in the
    `/api/spectrum` handler, and the frequency grid of the naive-DFT
    `_fft_mag(x, fs)` that shadows it. The Hann window and the transform
    are abstract: `binMag(k)` is the magnitude of rfft bin `k` of the
    windowed record. */
module AppSpectrum {
  import opened Outcomes
  import opened SpectrumBins

  datatype FftView = FftView(freqHz: seq<real>, mag: seq<real>, dominantHz: real)

  function RealMin(a: real, b: real): real
  {
    if a <= b then a else b
  }

  /** `min(fmax, fs / 2)`: the effective upper frequency. */
  function EffectiveFmax(fmax: real, fs: real): (m: real)
    ensures m <= fmax && m <= fs / 2.0
    ensures m == fmax || m == fs / 2.0
  {
    RealMin(fmax, fs / 2.0)
  }

  /** `_fft_mag(wave, fs, fmax)` on a record of `n` samples: rfft grid,
      truncation to `min(fmax, fs / 2)`, and the dominant frequency with DC
      ignored, `0.0` when at most two bins survive. numpy raises on an empty
      record, and `1.0 / fs` raises for a zero rate. */
  function FftMag(n: nat, fs: real, fmax: real, binMag: nat -> real): (r: Result<FftView>)
    ensures r.Err? <==> n == 0 || fs == 0.0
    ensures r.Ok? ==>
      var v := r.value;
      && |v.freqHz| == |v.mag|
      && (forall j :: 0 <= j < |v.freqHz| ==> v.freqHz[j] <= EffectiveFmax(fmax, fs))
      && (|v.freqHz| <= 2 ==> v.dominantHz == 0.0)
      && (|v.freqHz| > 2 ==>
            exists k :: 1 <= k < |v.freqHz| && v.dominantHz == v.freqHz[k]
              && (forall j :: 1 <= j < |v.mag| ==> v.mag[j] <= v.mag[k])
              && (forall j :: 1 <= j < k ==> v.mag[j] < v.mag[k]))
  {
    if n == 0 then Err("Invalid number of data points (0) specified")
    else if fs == 0.0 then Err("float division by zero")
    else
      var f := Grid(n / 2 + 1, n, fs);
      var mag := seq(n / 2 + 1, k requires 0 <= k < n / 2 + 1 => binMag(k));
      var sel := SelectAtMost(f, mag, EffectiveFmax(fmax, fs), 0);
      var dom := DominantSkippingDc(sel.mag);
      Ok(FftView(sel.freq, sel.mag, if dom.Some? then sel.freq[dom.value] else 0.0))
  }

  /** For a positive rate the truncation keeps exactly the leading bins
      whose frequency is at most `min(fmax, fs / 2)`, with their own
      magnitudes, and every dropped bin lies above that limit. */
  lemma FftMagKeepsLeadingBins(n: nat, fs: real, fmax: real, binMag: nat -> real)
    requires n > 0 && fs > 0.0
    ensures var v := FftMag(n, fs, fmax, binMag).value;
      var f := Grid(n / 2 + 1, n, fs);
      var c := |v.freqHz|;
      && c <= n / 2 + 1
      && v.freqHz == f[..c]
      && (forall k :: 0 <= k < c ==> v.mag[k] == binMag(k))
      && (forall k :: c <= k < n / 2 + 1 ==> f[k] > EffectiveFmax(fmax, fs))
  {
    var f := Grid(n / 2 + 1, n, fs);
    var mag := seq(n / 2 + 1, k requires 0 <= k < n / 2 + 1 => binMag(k));
    GridShape(n / 2 + 1, n, fs);
    SelectIsPrefix(f, mag, EffectiveFmax(fmax, fs), 0);
  }

  /** All kept frequencies are non-negative for a positive rate, and the
      dominant frequency is never the DC bin's. */
  lemma FftMagDominantNotDc(n: nat, fs: real, fmax: real, binMag: nat -> real)
    requires n > 0 && fs > 0.0
    ensures var v := FftMag(n, fs, fmax, binMag).value;
      && (forall j :: 0 <= j < |v.freqHz| ==> v.freqHz[j] >= 0.0)
      && (|v.freqHz| > 2 ==> v.dominantHz > 0.0)
  {
    var v := FftMag(n, fs, fmax, binMag).value;
    var f := Grid(n / 2 + 1, n, fs);
    FftMagKeepsLeadingBins(n, fs, fmax, binMag);
    GridShape(n / 2 + 1, n, fs);
    assert forall j :: 0 <= j < |v.freqHz| ==> v.freqHz[j] == f[j];
    if |v.freqHz| > 2 {
      var k :| 1 <= k < |v.freqHz| && v.dominantHz == v.freqHz[k];
      assert f[0] < f[k];
    }
  }

  /** The `/api/spectrum` handler's computation: records shorter than 16
      samples are refused, after which it is `_fft_mag` line for line. */
  function SpectrumRoute(n: nat, fs: real, fmax: real, binMag: nat -> real): (r: Result<FftView>)
    ensures n < 16 ==> r == Err("wave too short for FFT")
    ensures r.Err? <==> n < 16 || fs == 0.0
    ensures n >= 16 ==> r == FftMag(n, fs, fmax, binMag)
  {
    if n < 16 then Err("wave too short for FFT")
    else FftMag(n, fs, fmax, binMag)
  }

  /** Frequencies of the naive-DFT `_fft_mag(x, fs)`: `k * fs / n` for
      `k < n // 2`, with no division at all for an empty record. */
  function NaiveDftFreqs(n: nat, fs: real): (freqs: seq<real>)
    ensures |freqs| == n / 2
    ensures n >= 2 ==> freqs[0] == 0.0
  {
    if n == 0 then [] else Grid(n / 2, n, fs)
  }

  /** The naive-DFT grid is evenly spaced by `fs / n`; for a positive rate
      it increases strictly and stays below the Nyquist frequency, and it is
      the rfft grid without its last bin. */
  lemma {:induction false} NaiveDftGrid(n: nat, fs: real)
    requires n > 0
    ensures var freqs := NaiveDftFreqs(n, fs);
      && (forall k :: 0 <= k < |freqs| - 1 ==> freqs[k + 1] - freqs[k] == fs / (n as real))
      && (fs > 0.0 ==> StrictlyIncreasing(freqs))
      && (fs > 0.0 ==> forall k :: 0 <= k < |freqs| ==> 0.0 <= freqs[k] < fs / 2.0)
      && freqs == Grid(n / 2 + 1, n, fs)[..n / 2]
  {
    var freqs := NaiveDftFreqs(n, fs);
    GridShape(n / 2, n, fs);
    if fs > 0.0 {
      forall k | 0 <= k < |freqs|
        ensures 0.0 <= freqs[k] < fs / 2.0
      {
        GridNyquist(k, n, fs);
        assert freqs[0] == 0.0;
        assert k > 0 ==> freqs[0] < freqs[k];
      }
    }
  }
}
