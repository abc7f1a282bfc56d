/** The dashboard's `SpectrumAnalyzer`: window-name to sample-count
    mapping, the insufficient-data guards of `analyze`, `compute_fft` and
    `compute_spectrogram`, their frequency bookkeeping, and the min / max /
    peak-to-peak statistics. The record handed to the analyzer is a
    parameter (`None` or the samples), and so is the transform:
    `binMag(record, k)` is the magnitude of FFT bin `k` of the Hann-windowed
    record. */
module Analyzer {
  import opened Outcomes
  import opened SeqStats
  import opened SpectrumBins

  datatype SpectrumAnalyzer = SpectrumAnalyzer(samplingRate: int, nyquistFreq: real)

  /** `SpectrumAnalyzer.__init__`: Nyquist is half the sampling rate. */
  function NewAnalyzer(samplingRate: int): (a: SpectrumAnalyzer)
    ensures a.samplingRate == samplingRate
    ensures 2.0 * a.nyquistFreq == samplingRate as real
  {
    SpectrumAnalyzer(samplingRate, samplingRate as real / 2.0)
  }

  const DivisionByZero: string := "division by zero"
  const InsufficientData: string := "Insufficient data"

  /** `_get_sample_count`: seconds for the named window times the rate;
      an unknown name counts as one minute. */
  function SampleCount(a: SpectrumAnalyzer, timeWindow: string): (r: int)
    ensures timeWindow == "10min" ==> r == 600 * a.samplingRate
    ensures timeWindow == "30min" ==> r == 1800 * a.samplingRate
    ensures timeWindow != "10min" && timeWindow != "30min" ==> r == 60 * a.samplingRate
  {
    var seconds := if timeWindow == "1min" then 60
                   else if timeWindow == "10min" then 600
                   else if timeWindow == "30min" then 1800
                   else 60;
    seconds * a.samplingRate
  }

  datatype Stats = Stats(mean: real, min: real, max: real, peakToPeak: real)

  /** `_compute_statistics` without the square-root based `std` and `rms`. */
  function Statistics(data: seq<real>): (s: Stats)
    requires |data| > 0
    ensures s.min in data && s.max in data
    ensures forall i :: 0 <= i < |data| ==> s.min <= data[i] <= s.max
    ensures s.min <= s.mean <= s.max
    ensures s.mean == Sum(data) / (|data| as real)
    ensures s.peakToPeak == s.max - s.min >= 0.0
  {
    MeanBetweenMinMax(data);
    Stats(Mean(data), Min(data), Max(data), Max(data) - Min(data))
  }

  /** The shared guard: no record, or fewer than two samples. */
  predicate Insufficient(data: Option<seq<real>>)
  {
    data.None? || |data.value| < 2
  }

  datatype FftReply = FftReply(
    frequencies: seq<real>,
    magnitudeLinear: seq<real>,
    nyquistFrequency: real,
    frequencyResolution: real)

  /** `compute_fft`: guard, mean removal, the first `n // 2` bins of the FFT
      with frequencies from `fftfreq(n, 1 / rate)`, and `rate / n` as the
      resolution. `1 / rate` raises for a zero rate. */
  function ComputeFft(a: SpectrumAnalyzer, data: Option<seq<real>>, binMag: (seq<real>, nat) -> real)
    : (r: Result<FftReply>)
    ensures r == Err(InsufficientData) <==> Insufficient(data)
    ensures r.Err? <==> Insufficient(data) || a.samplingRate == 0
    ensures r.Ok? ==>
      var n := |data.value|;
      var v := r.value;
      && |v.frequencies| == |v.magnitudeLinear| == n / 2
      && v.nyquistFrequency == a.nyquistFreq
      && v.frequencyResolution * (n as real) == a.samplingRate as real
      && (forall k :: 0 <= k < n / 2 ==> v.magnitudeLinear[k] == binMag(Demean(data.value), k))
  {
    if Insufficient(data) then Err(InsufficientData)
    else if a.samplingRate == 0 then Err(DivisionByZero)
    else
      var x := data.value;
      var n := |x|;
      var rate := a.samplingRate as real;
      var centered := Demean(x);
      Ok(FftReply(
        Grid(n / 2, n, rate),
        seq(n / 2, k requires 0 <= k < n / 2 => binMag(centered, k)),
        a.nyquistFreq,
        rate / (n as real)))
  }

  /** The frequencies of `compute_fft` start at 0, are spaced by the
      reported resolution, and for a positive rate increase strictly and stay
      below the Nyquist frequency; the transformed record sums to zero. */
  lemma ComputeFftBins(a: SpectrumAnalyzer, data: Option<seq<real>>, binMag: (seq<real>, nat) -> real)
    requires a == NewAnalyzer(a.samplingRate)
    requires ComputeFft(a, data, binMag).Ok?
    ensures var v := ComputeFft(a, data, binMag).value;
      && v.frequencies[0] == 0.0
      && (forall k :: 0 <= k < |v.frequencies| - 1 ==> v.frequencies[k + 1] - v.frequencies[k] == v.frequencyResolution)
      && (a.samplingRate > 0 ==> StrictlyIncreasing(v.frequencies))
      && (a.samplingRate > 0 ==> forall k :: 0 <= k < |v.frequencies| ==> 0.0 <= v.frequencies[k] < v.nyquistFrequency)
      && Sum(Demean(data.value)) == 0.0
  {
    var x := data.value;
    var n := |x|;
    var rate := a.samplingRate as real;
    var v := ComputeFft(a, data, binMag).value;
    GridShape(n / 2, n, rate);
    DemeanSumsToZero(x);
    if a.samplingRate > 0 {
      forall k | 0 <= k < |v.frequencies|
        ensures 0.0 <= v.frequencies[k] < v.nyquistFrequency
      {
        GridNyquist(k, n, rate);
        assert k > 0 ==> v.frequencies[0] < v.frequencies[k];
      }
    }
  }

  datatype Analysis = Analysis(
    samplingRate: int,
    nyquistFrequency: real,
    fftFrequencies: seq<real>,
    statistics: Stats)

  /** scipy's spectrogram shortens its 256-sample segment to the record
      length and then refuses an overlap of 192 that is not below it. */
  const NoverlapTooLarge: string := "noverlap must be less than nperseg."

  /** `analyze`: the guard, then the FFT of the windowed record (first
      `n // 2` bins), the spectrogram, and the statistics of the raw record. */
  function Analyze(a: SpectrumAnalyzer, data: Option<seq<real>>): (r: Result<Analysis>)
    ensures r == Err(InsufficientData) <==> Insufficient(data)
    ensures r.Ok? <==> !Insufficient(data) && a.samplingRate != 0 && |data.value| > 192
    ensures r.Ok? ==>
      var x := data.value;
      var v := r.value;
      && v.samplingRate == a.samplingRate && v.nyquistFrequency == a.nyquistFreq
      && |v.fftFrequencies| == |x| / 2
      && (forall k :: 0 <= k < |x| / 2 ==> v.fftFrequencies[k] * (|x| as real) == (k as real) * (a.samplingRate as real))
      && v.statistics.min <= v.statistics.mean <= v.statistics.max
      && (forall i :: 0 <= i < |x| ==> v.statistics.min <= x[i] <= v.statistics.max)
  {
    if Insufficient(data) then Err(InsufficientData)
    else if a.samplingRate == 0 then Err(DivisionByZero)
    else if |data.value| <= 192 then Err(NoverlapTooLarge)
    else
      var x := data.value;
      GridScaled(|x| / 2, |x|, a.samplingRate as real);
      Ok(Analysis(a.samplingRate, a.nyquistFreq, Grid(|x| / 2, |x|, a.samplingRate as real), Statistics(x)))
  }

  /** Records of 2 to 192 samples pass the guard of `analyze` and still get
      an error, from the spectrogram step. */
  lemma AnalyzeRejectsShortRecords(a: SpectrumAnalyzer, x: seq<real>)
    requires 2 <= |x| <= 192 && a.samplingRate != 0
    ensures Analyze(a, Some(x)) == Err(NoverlapTooLarge)
  {
  }

  datatype SpectrogramInfo = SpectrogramInfo(
    frequencies: seq<real>,
    segments: nat,
    frequencyResolution: real,
    timeResolution: real)

  /** `compute_spectrogram`: at least 256 samples, then 256-sample Hann
      segments advancing by 64 samples, 129 frequency bins of `rate / 256`. */
  function ComputeSpectrogram(a: SpectrumAnalyzer, data: Option<seq<real>>): (r: Result<SpectrogramInfo>)
    ensures r == Err(InsufficientData) <==> data.None? || |data.value| < 256
    ensures r.Err? <==> data.None? || |data.value| < 256 || a.samplingRate == 0
    ensures r.Ok? ==>
      var v := r.value;
      && |v.frequencies| == 129 && v.segments >= 1
      && (forall k :: 0 <= k < 129 ==> v.frequencies[k] * 256.0 == (k as real) * (a.samplingRate as real))
      && 256 + (v.segments - 1) * 64 <= |data.value| < 256 + v.segments * 64
      && v.frequencyResolution * 256.0 == a.samplingRate as real
      && (v.segments > 1 ==> v.timeResolution * (a.samplingRate as real) == 64.0)
      && (v.segments == 1 ==> v.timeResolution == 0.0)
  {
    if data.None? || |data.value| < 256 then Err(InsufficientData)
    else if a.samplingRate == 0 then Err(DivisionByZero)
    else
      var n := |data.value|;
      var rate := a.samplingRate as real;
      var freqs := Grid(129, 256, rate);
      GridScaled(129, 256, rate);
      var segments := 1 + (n - 256) / 64;
      Ok(SpectrogramInfo(freqs, segments, freqs[1] - freqs[0], if segments > 1 then 64.0 / rate else 0.0))
  }

  /** The spectrogram's 129 frequencies form scipy's one-sided grid of a
      256-point segment: they start at 0, step by the reported resolution,
      increase for a positive rate and end exactly at the Nyquist frequency. */
  lemma ComputeSpectrogramBins(a: SpectrumAnalyzer, data: Option<seq<real>>)
    requires 2.0 * a.nyquistFreq == a.samplingRate as real
    requires data.Some? && |data.value| >= 256 && a.samplingRate != 0
    ensures var v := ComputeSpectrogram(a, data).value;
      && v.frequencies[0] == 0.0
      && (forall k :: 0 <= k < 128 ==> v.frequencies[k + 1] - v.frequencies[k] == v.frequencyResolution)
      && (a.samplingRate > 0 ==> StrictlyIncreasing(v.frequencies))
      && (a.samplingRate > 0 ==> v.frequencies[128] == a.nyquistFreq)
  {
    var rate := a.samplingRate as real;
    GridShape(129, 256, rate);
    if a.samplingRate > 0 {
      GridNyquist(128, 256, rate);
    }
  }
}
