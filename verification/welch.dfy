/** The live spectrum extension: `_welch_amp2`, a Welch average of
    Hann-windowed, mean-removed segments, and the `/api/spectrum_live`
    handler that sizes its segments and reports the dominant frequency.
    The windowed transform is abstract: `binPower(segment, k)` is the
    coherent-gain-normalised power `(|rfft(seg * win)[k]| / (nperseg * cg))**2`
    of bin `k`. The model keeps the averaged power `P`; the handler reports
    `sqrt(P)` bin by bin. */
module Welch {
  import opened Outcomes
  import opened SeqStats
  import opened SpectrumBins

  /** Python `x[lo:hi]` for non-negative bounds: both ends clamp to the length. */
  function PySlice(x: seq<real>, lo: nat, hi: nat): (r: seq<real>)
    ensures hi <= |x| && lo <= hi ==> r == x[lo..hi]
    ensures hi > |x| ==> r == PySlice(x, lo, |x|)
    ensures lo >= hi ==> r == []
    ensures |r| <= |x|
  {
    var h := if hi <= |x| then hi else |x|;
    if lo >= h then [] else x[lo..h]
  }

  /** `max(1, nperseg - noverlap)`. */
  function Hop(nperseg: int, noverlap: int): (h: nat)
    ensures h >= 1 && h >= nperseg - noverlap
    ensures h == 1 || h == nperseg - noverlap
  {
    if nperseg - noverlap >= 1 then nperseg - noverlap else 1
  }

  /** `1 + (n - nperseg) // hop`; with a positive divisor Dafny's division
      is Python's floor division. */
  function SegmentCount(n: nat, nperseg: nat, hop: nat): int
    requires hop >= 1
  {
    1 + (n - nperseg) / hop
  }

  lemma MulMonotone(a: nat, b: nat, h: nat)
    requires a <= b
    ensures a * h <= b * h
  {
  }

  /** With at least one full segment of data, there is at least one segment,
      every segment `[s * hop, s * hop + nperseg)` lies inside the record,
      and one more segment would not fit. */
  lemma {:induction false} SegmentsInBounds(n: nat, nperseg: nat, hop: nat)
    requires hop >= 1 && n >= nperseg
    ensures SegmentCount(n, nperseg, hop) >= 1
    ensures forall s: nat :: s < SegmentCount(n, nperseg, hop) ==> s * hop + nperseg <= n
    ensures SegmentCount(n, nperseg, hop) * hop + nperseg > n
  {
    var q := (n - nperseg) / hop;
    assert q * hop <= n - nperseg < (q + 1) * hop;
    forall s: nat | s < SegmentCount(n, nperseg, hop)
      ensures s * hop + nperseg <= n
    {
      MulMonotone(s, q, hop);
    }
  }

  /** One-sided scaling: double every bin that has a negative-frequency
      mirror. For even `nperseg` that is bins `1 .. len - 2` (DC and Nyquist
      kept), for odd `nperseg` bins `1 .. len - 1`. */
  function OneSided(spec: seq<real>, nperseg: int): (r: seq<real>)
    ensures |r| == |spec|
    ensures |spec| > 0 ==> r[0] == spec[0]
    ensures forall k :: 0 <= k < |spec| ==>
      r[k] == (if 1 <= k && (nperseg % 2 != 0 || k < |spec| - 1) then 2.0 * spec[k] else spec[k])
  {
    if nperseg % 2 == 0 then
      if |spec| > 2 then
        seq(|spec|, k requires 0 <= k < |spec| => if 1 <= k < |spec| - 1 then 2.0 * spec[k] else spec[k])
      else spec
    else
      if |spec| > 1 then
        seq(|spec|, k requires 0 <= k < |spec| => if 1 <= k then 2.0 * spec[k] else spec[k])
      else spec
  }

  /** On the rfft grid of `nperseg` points, one-sided scaling doubles exactly
      the bins strictly between 0 Hz and the Nyquist frequency `fs / 2`:
      never DC, and the last bin only when `nperseg` is odd. */
  lemma OneSidedDoublesInteriorBins(spec: seq<real>, nperseg: nat, fs: real)
    requires nperseg >= 1 && fs > 0.0 && |spec| == nperseg / 2 + 1
    ensures var freq := Grid(nperseg / 2 + 1, nperseg, fs);
      forall k :: 0 <= k < |spec| ==>
        OneSided(spec, nperseg)[k] == (if 0.0 < freq[k] < fs / 2.0 then 2.0 * spec[k] else spec[k])
  {
    forall k | 0 <= k < |spec|
      ensures OneSided(spec, nperseg)[k] ==
        (if 0.0 < Grid(nperseg / 2 + 1, nperseg, fs)[k] < fs / 2.0 then 2.0 * spec[k] else spec[k])
    {
      OneSidedBin(spec, nperseg, fs, k);
    }
  }

  lemma OneSidedBin(spec: seq<real>, nperseg: nat, fs: real, k: nat)
    requires nperseg >= 1 && fs > 0.0 && |spec| == nperseg / 2 + 1 && k < |spec|
    ensures OneSided(spec, nperseg)[k] ==
      (if 0.0 < Grid(nperseg / 2 + 1, nperseg, fs)[k] < fs / 2.0 then 2.0 * spec[k] else spec[k])
  {
    var f := (k as real) * fs / (nperseg as real);
    assert Grid(nperseg / 2 + 1, nperseg, fs)[k] == f;
    GridNyquist(k, nperseg, fs);
    if k > 0 {
      GridMonotone(0, k, nperseg, fs);
      assert 0.0 < f;
      if nperseg % 2 == 0 && k == |spec| - 1 {
        assert 2 * k == nperseg;
      } else {
        assert 2 * k < nperseg;
      }
    }
  }

  function AddSeqs(a: seq<real>, b: seq<real>): (r: seq<real>)
    requires |a| == |b|
    ensures |r| == |a|
    ensures forall k :: 0 <= k < |a| ==> r[k] == a[k] + b[k]
  {
    seq(|a|, k requires 0 <= k < |a| => a[k] + b[k])
  }

  /** One segment's one-sided power spectrum, from the mean-removed segment. */
  function SegmentSpectrum(seg: seq<real>, nperseg: int, bins: nat, binPower: (seq<real>, nat) -> real): (r: seq<real>)
    ensures |r| == bins
  {
    var centered := Demean(seg);
    OneSided(seq(bins, k requires 0 <= k < bins => binPower(centered, k)), nperseg)
  }

  /** The segment loop as written: slice with clamping, stop at the first
      short slice, otherwise add the segment's spectrum to `P`. */
  function Accumulate(x: seq<real>, nperseg: nat, hop: nat, nseg: int, binPower: (seq<real>, nat) -> real,
                      s: nat, P: seq<real>): (r: seq<real>)
    requires hop >= 1
    ensures |r| == |P|
    decreases nseg - s
  {
    if s >= nseg then P
    else
      var seg := PySlice(x, s * hop, s * hop + nperseg);
      if |seg| != nperseg then P
      else Accumulate(x, nperseg, hop, nseg, binPower, s + 1, AddSeqs(P, SegmentSpectrum(seg, nperseg, |P|, binPower)))
  }

  /** Reference: the sum over EVERY segment `s .. nseg - 1`, taken by plain
      in-bounds slicing. */
  function SegmentsTotal(x: seq<real>, nperseg: nat, hop: nat, binPower: (seq<real>, nat) -> real,
                         s: nat, P: seq<real>): (r: seq<real>)
    requires hop >= 1 && |x| >= nperseg
    requires s <= SegmentCount(|x|, nperseg, hop)
    ensures |r| == |P|
    decreases SegmentCount(|x|, nperseg, hop) - s
  {
    SegmentsInBounds(|x|, nperseg, hop);
    if s == SegmentCount(|x|, nperseg, hop) then P
    else
      SegmentsTotal(x, nperseg, hop, binPower, s + 1,
        AddSeqs(P, SegmentSpectrum(x[s * hop .. s * hop + nperseg], nperseg, |P|, binPower)))
  }

  /** The size check in the loop never fires: every one of the `nseg`
      segments is full and contributes to the sum. */
  lemma {:induction false} NoSegmentIsShort(x: seq<real>, nperseg: nat, hop: nat, binPower: (seq<real>, nat) -> real,
                                           s: nat, P: seq<real>)
    requires hop >= 1 && |x| >= nperseg
    requires s <= SegmentCount(|x|, nperseg, hop)
    ensures Accumulate(x, nperseg, hop, SegmentCount(|x|, nperseg, hop), binPower, s, P)
         == SegmentsTotal(x, nperseg, hop, binPower, s, P)
    decreases SegmentCount(|x|, nperseg, hop) - s
  {
    var nseg := SegmentCount(|x|, nperseg, hop);
    SegmentsInBounds(|x|, nperseg, hop);
    if s < nseg {
      assert s * hop + nperseg <= |x|;
      var seg := PySlice(x, s * hop, s * hop + nperseg);
      assert seg == x[s * hop .. s * hop + nperseg];
      NoSegmentIsShort(x, nperseg, hop, binPower, s + 1, AddSeqs(P, SegmentSpectrum(seg, nperseg, |P|, binPower)));
    }
  }

  function Scale(P: seq<real>, d: real): (r: seq<real>)
    requires d != 0.0
    ensures |r| == |P|
    ensures forall k :: 0 <= k < |P| ==> r[k] * d == P[k]
  {
    seq(|P|, k requires 0 <= k < |P| => P[k] / d)
  }

  function Zeros(n: nat): (r: seq<real>)
    ensures |r| == n && forall k :: 0 <= k < n ==> r[k] == 0.0
  {
    seq(n, _ => 0.0)
  }

  predicate Rejected(n: nat, fs: Option<real>, nperseg: int)
  {
    n < 2 || n < nperseg || fs.None? || fs.value <= 0.0
  }

  /** `_welch_amp2(wave, fs, nperseg, noverlap, fmax)`, reporting averaged
      power. A missing or non-positive rate, or a record shorter than
      `max(2, nperseg)`, gives empty arrays. */
  function WelchAmp2(wave: seq<real>, fs: Option<real>, nperseg: nat, noverlap: int, fmax: Option<real>,
                     binPower: (seq<real>, nat) -> real): (r: Bins)
    requires nperseg >= 1
    ensures |r.freq| == |r.mag|
    ensures Rejected(|wave|, fs, nperseg) ==> r == Bins([], [])
    ensures !Rejected(|wave|, fs, nperseg) && fmax.None? ==>
      r.freq == Grid(nperseg / 2 + 1, nperseg, fs.value)
    ensures fmax.Some? ==> forall j :: 0 <= j < |r.freq| ==> r.freq[j] <= fmax.value
  {
    var n := |wave|;
    if Rejected(n, fs, nperseg) then Bins([], [])
    else
      var x := Demean(wave);
      var hop := Hop(nperseg, noverlap);
      var nseg := SegmentCount(n, nperseg, hop);
      var freq := Grid(nperseg / 2 + 1, nperseg, fs.value);
      var total := Accumulate(x, nperseg, hop, nseg, binPower, 0, Zeros(|freq|));
      SegmentsInBounds(n, nperseg, hop);
      var P := Scale(total, nseg as real);
      if fmax.Some? then SelectAtMost(freq, P, fmax.value, 0) else Bins(freq, P)
  }

  /** Every accepted call averages all `1 + (n - nperseg) // hop` segments of
      the mean-removed record, then keeps the leading grid bins up to `fmax`. */
  lemma WelchAveragesAllSegments(wave: seq<real>, fs: real, nperseg: nat, noverlap: int, fmax: real,
                                 binPower: (seq<real>, nat) -> real)
    requires nperseg >= 1 && !Rejected(|wave|, Some(fs), nperseg)
    ensures var hop := Hop(nperseg, noverlap);
      var nseg := SegmentCount(|wave|, nperseg, hop);
      var freq := Grid(nperseg / 2 + 1, nperseg, fs);
      var P := Scale(SegmentsTotal(Demean(wave), nperseg, hop, binPower, 0, Zeros(|freq|)), nseg as real);
      var c := Cut(freq, fmax, 0);
      && nseg >= 1
      && WelchAmp2(wave, Some(fs), nperseg, noverlap, Some(fmax), binPower) == Bins(freq[..c], P[..c])
      && (forall k :: c <= k < |freq| ==> freq[k] > fmax)
  {
    var hop := Hop(nperseg, noverlap);
    var x := Demean(wave);
    var freq := Grid(nperseg / 2 + 1, nperseg, fs);
    SegmentsInBounds(|wave|, nperseg, hop);
    NoSegmentIsShort(x, nperseg, hop, binPower, 0, Zeros(|freq|));
    GridShape(nperseg / 2 + 1, nperseg, fs);
    var nseg := SegmentCount(|wave|, nperseg, hop);
    var P := Scale(SegmentsTotal(x, nperseg, hop, binPower, 0, Zeros(|freq|)), nseg as real);
    SelectIsPrefix(freq, P, fmax, 0);
  }

  /** Without `fmax` an accepted call reports the whole grid with the
      average over all segments of the mean-removed record. */
  lemma WelchAveragesAllSegmentsUnbounded(wave: seq<real>, fs: real, nperseg: nat, noverlap: int,
                                          binPower: (seq<real>, nat) -> real)
    requires nperseg >= 1 && !Rejected(|wave|, Some(fs), nperseg)
    ensures var hop := Hop(nperseg, noverlap);
      var nseg := SegmentCount(|wave|, nperseg, hop);
      var freq := Grid(nperseg / 2 + 1, nperseg, fs);
      && nseg >= 1
      && WelchAmp2(wave, Some(fs), nperseg, noverlap, None, binPower)
         == Bins(freq, Scale(SegmentsTotal(Demean(wave), nperseg, hop, binPower, 0, Zeros(|freq|)), nseg as real))
  {
    var hop := Hop(nperseg, noverlap);
    var freq := Grid(nperseg / 2 + 1, nperseg, fs);
    SegmentsInBounds(|wave|, nperseg, hop);
    NoSegmentIsShort(Demean(wave), nperseg, hop, binPower, 0, Zeros(|freq|));
  }

  /** Python's `round` on a float: nearest integer, ties to the even one. */
  function RoundHalfEven(v: real): (r: int)
    ensures -0.5 <= (r as real) - v <= 0.5
    ensures ((r as real) - v == 0.5 || (r as real) - v == -0.5) ==> r % 2 == 0
  {
    var f := v.Floor;
    var d := v - (f as real);
    if d < 0.5 then f
    else if d > 0.5 then f + 1
    else if f % 2 == 0 then f
    else f + 1
  }

  /** Segment length chosen by the handler: `max(256, round(duration_s * fs))`. */
  function LiveNperseg(durationS: real, fs: real): (nperseg: nat)
    ensures nperseg >= 256 && nperseg >= RoundHalfEven(durationS * fs)
    ensures nperseg == 256 || nperseg == RoundHalfEven(durationS * fs)
  {
    var k := RoundHalfEven(durationS * fs);
    if k >= 256 then k else 256
  }

  /** The handler's segment spans the whole requested duration whenever that
      is at least 256 samples; with `noverlap = nperseg // 2` the hop is the
      larger half of the segment. */
  lemma LiveSegmentIsWholeDuration(durationS: real, fs: real, samples: nat)
    requires samples >= 256 && durationS * fs == samples as real
    ensures LiveNperseg(durationS, fs) == samples
    ensures Hop(samples, samples / 2) == samples - samples / 2 >= 128
  {
    var k := RoundHalfEven(durationS * fs);
    assert -0.5 <= (k as real) - (samples as real) <= 0.5;
  }

  /** The record the live handler gets from the miniSEED loader, or the
      exception message the loader raised. */
  datatype Loaded = Loaded(fs: real, wave: seq<real>)

  datatype LiveReply = LiveReply(
    freqHz: seq<real>,
    power: seq<real>,
    dominantHz: Option<real>,
    fs: Option<real>,
    error: Option<string>)

  /** `/api/spectrum_live`: the loader's record, Welch with
      `nperseg = max(256, round(duration_s * fs))` and 50 % overlap, fmax
      truncation, and the frequency of the largest bin with DC included. */
  function SpectrumLive(loaderFound: bool, loaded: Result<Loaded>, durationS: real, fmax: real,
                        binPower: (seq<real>, nat) -> real): (r: LiveReply)
    ensures !loaderFound ==> r.error == Some("internal loader function not found in app") && r.freqHz == []
    ensures loaderFound && loaded.Err? ==> r.error == Some(loaded.message) && r.freqHz == []
    ensures |r.freqHz| == |r.power|
    ensures forall j :: 0 <= j < |r.freqHz| ==> r.freqHz[j] <= fmax
    ensures r.dominantHz.None? <==> r.freqHz == []
    ensures !loaderFound || loaded.Err? ==> r.power == [] && r.dominantHz == None && r.fs == None
    ensures loaderFound && loaded.Ok? ==>
      var nperseg := LiveNperseg(durationS, loaded.value.fs);
      && r.error == None && r.fs == Some(loaded.value.fs)
      && Bins(r.freqHz, r.power)
         == WelchAmp2(loaded.value.wave, Some(loaded.value.fs), nperseg, nperseg / 2, Some(fmax), binPower)
    ensures r.dominantHz.Some? ==>
      exists k :: 0 <= k < |r.freqHz| && r.dominantHz.value == r.freqHz[k]
        && (forall j :: 0 <= j < |r.power| ==> r.power[j] <= r.power[k])
        && (forall j :: 0 <= j < k ==> r.power[j] < r.power[k])
  {
    if !loaderFound then LiveReply([], [], None, None, Some("internal loader function not found in app"))
    else if loaded.Err? then LiveReply([], [], None, None, Some(loaded.message))
    else
      var d := loaded.value;
      var nperseg := LiveNperseg(durationS, d.fs);
      var b := WelchAmp2(d.wave, Some(d.fs), nperseg, nperseg / 2, Some(fmax), binPower);
      var dom := DominantIncludingDc(b.mag);
      LiveReply(b.freq, b.mag, if dom.Some? then Some(b.freq[dom.value]) else None, Some(d.fs), None)
  }

  /** For a record of at least one segment and a positive rate, the live
      reply holds the leading grid bins up to `fmax` of the average over all
      `1 + (n - nperseg) // hop` segments, `nperseg = max(256, round(duration_s * fs))`,
      and the dominant frequency is that of the first largest of them. */
  lemma {:induction false} SpectrumLiveAveragesSegments(loaded: Loaded, durationS: real, fmax: real,
                                                         binPower: (seq<real>, nat) -> real)
    requires loaded.fs > 0.0 && |loaded.wave| >= LiveNperseg(durationS, loaded.fs)
    ensures var nperseg := LiveNperseg(durationS, loaded.fs);
      var hop := Hop(nperseg, nperseg / 2);
      var nseg := SegmentCount(|loaded.wave|, nperseg, hop);
      var freq := Grid(nperseg / 2 + 1, nperseg, loaded.fs);
      var P := Scale(SegmentsTotal(Demean(loaded.wave), nperseg, hop, binPower, 0, Zeros(|freq|)), nseg as real);
      var c := Cut(freq, fmax, 0);
      var r := SpectrumLive(true, Ok(loaded), durationS, fmax, binPower);
      && r.freqHz == freq[..c] && r.power == P[..c]
      && (c > 0 ==> r.dominantHz == Some(freq[ArgMaxFrom(P[..c], 0)]))
  {
    var nperseg := LiveNperseg(durationS, loaded.fs);
    WelchAveragesAllSegments(loaded.wave, loaded.fs, nperseg, nperseg / 2, fmax, binPower);
    var freq := Grid(nperseg / 2 + 1, nperseg, loaded.fs);
    var c := Cut(freq, fmax, 0);
    var r := SpectrumLive(true, Ok(loaded), durationS, fmax, binPower);
    if c > 0 {
      var k := ArgMaxFrom(r.power, 0);
      assert r.freqHz[k] == freq[k];
    }
  }

  /** A record shorter than one segment (at least 256 samples) yields no bins
      and no dominant frequency. */
  lemma LiveShortRecordIsEmpty(loaded: Loaded, durationS: real, fmax: real, binPower: (seq<real>, nat) -> real)
    requires |loaded.wave| < 256
    ensures var r := SpectrumLive(true, Ok(loaded), durationS, fmax, binPower);
      r.freqHz == [] && r.power == [] && r.dominantHz == None && r.error == None
  {
  }
}
