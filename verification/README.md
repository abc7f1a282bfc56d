# geotiny dashboard core in Dafny

A Dafny model of the bookkeeping inside the geotiny seismic dashboard, a
Flask application that shows three-axis seismometer data, spectra and a
USGS earthquake feed. The model leaves out sockets, numpy's transform and
HTTP. It covers the logic around them:

- **RingBuffer**, **Devices**: the per-channel `deque(maxlen=3000)`
  buffers of `GeotinyDevice`, and the `read_data` append path.
  - `get_buffer`, `get_status` and the waveform lookups of `DeviceManager`,
    including Python's `buffer[-samples:]` slice.
  - The reconnect counter of the acquisition loop, with the loop run over
    any sequence of passes.
- **SpectrumBins**: exact frequency grids `k * fs / n`, the boolean-mask
  truncation `f <= threshold`, and dominant-bin selection (numpy `argmax`
  takes the first maximum).
- **AppSpectrum**: the windowed-rfft `_fft_mag`, its inline copy in the
  `/api/spectrum` handler, and the naive-DFT grid of app.py.
- **Analyzer**: `SpectrumAnalyzer`, covering the window-to-sample-count
  map, the insufficient-data guards, the FFT and spectrogram frequency
  bookkeeping, and the statistics.
- **Welch**: `_welch_amp2`, covering hop and segment count, segment
  bounds, one-sided doubling and the fmax mask. Also the segment length
  and dominant bin of `/api/spectrum_live`.
- **RequestParams**: `_clamp_int`, which includes Python's `int()` on
  text, and `_pick`.
- **Proxy**: `_rewrite_location`, the request headers forwarded to the
  vendor device (dict semantics), and the response headers passed back.
- **GlobalSeismic**: USGS feature formatting, the magnitude filter, the
  five-minute cache and `get_stats`.
- **SeqStats**, **Outcomes**: sums, means, extremes and mean removal over
  reals, and the `Option`, `Result` and JSON `Field` wrappers.

The model represents Python and numpy behaviour as follows:

- **Transform output.** Magnitudes and powers are never computed. They are
  function parameters:
  - `binMag(k)` is bin `k` of the windowed rfft;
  - `binMag(record, k)` does the same for a given record;
  - `binPower(segment, k)` is the scaled power of one segment.
- **Numbers.** Floats are exact reals.
- **Python exceptions.** Each becomes an `Err` that carries the exception's
  message, with every JSON number named `float` (the model does not tell
  integers from floats). Examples:
  - a zero rate in `1 / rate`;
  - numpy's reduction over an empty slice;
  - scipy refusing an overlap of 192 on a short record;
  - comparing a JSON `null` magnitude, in the filter and inside `min`.
- **Outside inputs.** The clock, the outcome of `connect()`, what
  `recv(12)` returned, the USGS response and the miniSEED loader's record
  are all parameters.

## Model

| member | source | states |
|---|---|---|
| SeqStats.ArgMaxFrom | app.py:148 | the index is in range, no later element exceeds it, and every earlier element is strictly smaller (numpy's first maximum) |
| SeqStats.DemeanSumsToZero | web/api/spectrum.py:97 | after mean removal the record sums to zero |
| SeqStats.DemeanIdempotent | ext_spectrum_live.py:28-45 | removing the mean of an already mean-removed record changes nothing, so when one segment spans the whole record the per-segment removal adds nothing to the record-level one |
| SeqStats.MeanBetweenMinMax | web/api/spectrum.py:228-233 | the mean lies between the minimum and the maximum |
| SeqStats.MeanTimesLength | web/api/spectrum.py:228 | the mean of a non-empty record, multiplied by its length, is its sum |
| RingBuffer.Append | web/api/devices.py:44-45 | a bounded deque never exceeds `maxlen`; the new value is last; a non-full deque just grows; a full one drops only its oldest element and keeps the rest in order |
| RingBuffer.AppendKeepsNewest | web/api/devices.py:44-45 | after one append the deque is the newest `maxlen` elements of old contents plus the new value |
| RingBuffer.AppendAllKeepsNewest | web/api/devices.py:42-45 | after any run of appends the deque holds exactly the newest `maxlen` elements of the whole history, oldest first |
| Devices.NewDevice | web/api/devices.py:22-45 | a new device is disconnected with no data time and three empty buffers of capacity 3000 |
| Devices.ReadData | web/api/devices.py:91-126 | a value comes back iff the device is (or gets) connected and a full 12-byte frame arrives; then one value goes into each of X, Y and Z and the data time is set; every other path leaves all buffers and the data time alone; a short read keeps the connection, a timeout or other error drops it |
| Devices.GetBuffer | web/api/devices.py:128-142 | X, Y and Z give that channel's contents in order; any other name gives an empty array |
| Devices.GetStatus | web/api/devices.py:144-153 | the reported sample count equals the length of every channel and is at most 3000 |
| Devices.InitialDevices | web/api/devices.py:174-190 | exactly the three configured devices, each fresh and disconnected |
| Devices.TimeAxisSpacing | web/api/devices.py:280-282 | the time axis has one entry per sample, starts at minus the buffer length times dt, and advances by dt |
| Devices.TimeAxisEndsAtBufferEndIffWhole | web/api/devices.py:280-282 | the axis ends one interval before zero exactly when the whole buffer is returned, so it is not "relative to the end of the buffer" for a shorter slice |
| Devices.LatestWaveform | web/api/devices.py:252-295 | None for an unknown device or an empty buffer; otherwise a suffix of the channel with its time axis and its own minimum and maximum; the numpy empty-reduction error exactly when a negative count slices everything away |
| Devices.LatestSlice | web/api/devices.py:274-278 | the "last N" step yields a suffix of the buffer; it is empty exactly when the buffer is empty or the count is at most minus its length; a positive count gives the newest `min(samples, len)` samples, a zero count the whole buffer, and a negative count `-samples` drops that many leading samples (all of them when the count is at most minus the length), as `buffer[-samples:]` does |
| Devices.LatestWaveformIsNewest | web/api/devices.py:274-278 | for a positive count the data are the newest `min(samples, len)` samples in order |
| Devices.LatestWaveformLength | web/api/devices.py:265-278 | for a known device and a positive count, a waveform comes back exactly when the channel's buffer is non-empty, with `min(samples, len)` samples |
| Devices.ZeroSamplesGivesWholeBuffer | web/api/devices.py:275-276 | a count of zero returns the whole buffer, because `-0` slices from the start |
| Devices.MultiChannelWaveform | web/api/devices.py:297-309 | None for an unknown device; for a known one an error exactly when one of the three single-channel lookups raises, the X lookup's error when it raises, and otherwise always a result holding the three lookups |
| Devices.MultiChannelAligned | web/api/devices.py:297-309 | for a valid device and a positive count, the three channels are all present or all absent, with equal lengths |
| Devices.AcquisitionTick | web/api/devices.py:216-233 | a disconnected device counts passes and attempts `connect()` exactly when the count has reached 10, which resets it; a connected one is read, and only a successful read resets the count |
| Devices.Run | web/api/devices.py:216-233 | over any run of passes the device stays consistent and at most one reading is taken per pass; a disconnected device whose counter stays within the limit is only counted, with nothing read and no reconnect |
| Devices.RetryCounterBounded | web/api/devices.py:218-228 | the counter stays in [0, 10] and a reconnect is attempted exactly when it equals 10 |
| Devices.TickKeepsNewestZ | web/api/devices.py:216-233 | one pass leaves the Z buffer holding the newest 3000 of its old contents followed by the value read, if any |
| Devices.RunKeepsNewest | web/api/devices.py:216-233 | over any run of passes the counter stays in range and the Z buffer is the newest 3000 of its old contents plus every Z value read |
| SpectrumBins.GridShape | app.py:136 | a grid starts at 0 Hz, is evenly spaced by `fs / n`, and increases strictly for a positive rate |
| SpectrumBins.GridNyquist | web/api/spectrum.py:104-106 | bins below `n / 2` lie strictly below `fs / 2`, and bin `n / 2` of an even `n` lies on it |
| SpectrumBins.SelectAtMost | app.py:140-143 | the masked frequency and magnitude arrays have equal length and every kept frequency is at most the threshold |
| SpectrumBins.SelectKeepsExactly | app.py:141-143 | the mask keeps exactly the bins at or below the threshold, in order, each magnitude with its own frequency |
| SpectrumBins.SelectIsPrefix | app.py:140-143 | on a non-decreasing grid the mask keeps a leading run of bins and every later bin is above the threshold |
| SpectrumBins.DominantSkippingDc | app.py:145-149 | no dominant bin with two or fewer bins; otherwise an index in [1, len) whose magnitude is at least every non-DC magnitude, the first such |
| SpectrumBins.DominantIncludingDc | ext_spectrum_live.py:92-94 | no dominant bin for an empty spectrum; otherwise the first index of the largest magnitude, DC included |
| AppSpectrum.EffectiveFmax | app.py:140 | the limit is `fmax` or `fs / 2`, whichever is smaller |
| AppSpectrum.FftMag | app.py:128-151 | error exactly for an empty record or a zero rate; otherwise equal-length arrays within the limit, dominant 0.0 with at most two bins, else the frequency of the first non-DC bin of largest magnitude, as `argmax(mag2[1:]) + 1` picks |
| AppSpectrum.FftMagKeepsLeadingBins | app.py:139-143 | for a positive rate the result is exactly the leading rfft bins up to `min(fmax, fs / 2)`, magnitudes unchanged |
| AppSpectrum.FftMagDominantNotDc | app.py:145-149 | kept frequencies are non-negative and, with more than two bins, the dominant frequency is positive |
| AppSpectrum.SpectrumRoute | app.py:221-242 | records under 16 samples are refused with "wave too short for FFT"; otherwise the handler computes what `_fft_mag` computes |
| AppSpectrum.NaiveDftFreqs | app.py:194-197 | `n // 2` frequencies starting at 0 |
| AppSpectrum.NaiveDftGrid | app.py:194-197 | the naive-DFT grid is spaced by `fs / n`, increases strictly and stays below `fs / 2` for a positive rate, and is the rfft grid without its last bin |
| Analyzer.NewAnalyzer | web/api/spectrum.py:21-29 | the Nyquist frequency is half the sampling rate |
| Analyzer.SampleCount | web/api/spectrum.py:236-252 | 10min and 30min give 600 and 1800 seconds of samples; every other name gives 60 seconds |
| Analyzer.Statistics | web/api/spectrum.py:225-234 | min and max are samples that bound every sample, the mean is the sum over the length and lies between them, and the peak-to-peak value is their non-negative difference |
| Analyzer.ComputeFft | web/api/spectrum.py:81-126 | "Insufficient data" exactly without at least two samples; division by zero for a zero rate; otherwise `n // 2` bins whose magnitudes are those of the mean-removed record, and resolution times `n` equal to the rate |
| Analyzer.ComputeFftBins | web/api/spectrum.py:96-121 | the frequencies start at 0, step by the reported resolution, increase, stay below Nyquist, and the transformed record sums to zero |
| Analyzer.Analyze | web/api/spectrum.py:32-79 | "Insufficient data" exactly without two samples; success exactly with a non-zero rate and more than 192 samples, with `n // 2` FFT frequencies, frequency `k` being `k * rate / n` as `fftfreq(n, 1 / rate)[:n // 2]` gives, and statistics bounding every sample |
| Analyzer.AnalyzeRejectsShortRecords | web/api/spectrum.py:50-61 | records of 2 to 192 samples pass the guard and still fail, in the spectrogram step |
| Analyzer.ComputeSpectrogram | web/api/spectrum.py:128-184 | "Insufficient data" exactly below 256 samples; otherwise 129 frequency bins, bin `k` at `k * rate / 256`, a segment count that fits the record, resolution `rate / 256`, and time resolution `64 / rate` when there are two or more segments |
| Analyzer.ComputeSpectrogramBins | web/api/spectrum.py:206-221 | the spectrogram frequencies start at 0, step by the reported resolution, increase for a positive rate and end exactly at the Nyquist frequency |
| Welch.PySlice | ext_spectrum_live.py:42 | an in-bounds slice is the plain subsequence, an end past the length is clamped to it, and an empty or reversed range gives nothing |
| Welch.Hop | ext_spectrum_live.py:30 | the hop is at least 1, and `nperseg - noverlap` when that is positive |
| Welch.SegmentsInBounds | ext_spectrum_live.py:30-44 | with at least one segment of data there is at least one segment, and every segment lies inside the record |
| Welch.OneSided | ext_spectrum_live.py:47-53 | even lengths double bins 1 to len-2, odd lengths double bins from 1 on, the DC bin is never doubled, and every other bin is left alone |
| Welch.OneSidedDoublesInteriorBins | ext_spectrum_live.py:47-53 | on the rfft grid, exactly the bins strictly between 0 Hz and Nyquist are doubled |
| Welch.NoSegmentIsShort | ext_spectrum_live.py:40-44 | the loop's size check never fires, so it sums every segment |
| Welch.WelchAmp2 | ext_spectrum_live.py:22-64 | empty arrays for a record shorter than `max(2, nperseg)` or a missing or non-positive rate; equal-length arrays always; without `fmax` the full rfft grid of `nperseg` points, with it only frequencies up to `fmax` |
| Welch.WelchAveragesAllSegments | ext_spectrum_live.py:28-56 | an accepted call averages all `1 + (n - nperseg) // hop` segments of the mean-removed record, then applies the mask |
| Welch.WelchAveragesAllSegmentsUnbounded | ext_spectrum_live.py:28-64 | without `fmax`, an accepted call returns the whole `nperseg // 2 + 1` grid with the average over all segments of the mean-removed record |
| Welch.RoundHalfEven | ext_spectrum_live.py:88 | Python's `round`: the nearest integer, ties to the even one |
| Welch.LiveNperseg | ext_spectrum_live.py:88-89 | the segment length is at least 256 and at least the rounded duration in samples, and is one of the two |
| Welch.LiveSegmentIsWholeDuration | ext_spectrum_live.py:88 | for durations of at least 256 samples the segment is the whole duration, not a few seconds |
| Welch.SpectrumLive | ext_spectrum_live.py:66-104 | a missing loader or a failing load gives no bins, no rate and no dominant frequency, and carries the error; a successful load reports no error, the loader's rate, and exactly the bins of `_welch_amp2` with `nperseg = max(256, round(duration_s * fs))`, half overlap and `fmax`; the dominant frequency is absent exactly when there are no bins, and otherwise is the frequency of the first largest bin, DC included |
| Welch.SpectrumLiveAveragesSegments | ext_spectrum_live.py:22-94 | for a positive rate and a record of at least one segment, the reply holds the leading grid bins up to `fmax` of the average over all segments of the mean-removed record, and the dominant frequency is the grid frequency of the first largest of them |
| Welch.LiveShortRecordIsEmpty | ext_spectrum_live.py:85-99 | a record shorter than one segment yields no bins and no dominant frequency |
| RequestParams.ParseShowRoundTrip | app.py:171 | `int(str(i)) == i` for every integer |
| RequestParams.ParseInt | app.py:171 | blank text is rejected; accepted text is, once stripped, only digits and underscores after an optional sign; a negative value comes only from a leading minus |
| RequestParams.ParseIgnoresSurroundingSpace | app.py:171 | leading or trailing whitespace (space, tab, line feed, carriage return, vertical tab, form feed) never changes what `int()` reads |
| RequestParams.LeadingJunkIsRejected | app.py:171 | `int()` rejects text whose first character is not whitespace, a sign or a digit |
| RequestParams.RejectedIsDefault | app.py:170-174 | a parameter `int()` rejects clamps exactly like a missing one: the caught exception leaves `x` at the default |
| RequestParams.SeparatorIsRejected | app.py:170-174 | the ASCII separators `\x1c`..`\x1f` are not whitespace to `int()`, so a parameter starting with one is rejected and `_clamp_int` returns what it would for a missing parameter |
| RequestParams.Requested | app.py:170-173 | the default when the parameter is missing or `int()` rejects it, the parsed value otherwise |
| RequestParams.ClampInt | app.py:169-174 | the result is within [lo, hi] when lo <= hi and is lo otherwise; an in-range value comes back unchanged; values below go to lo and values above to hi |
| RequestParams.Pick | app.py:176-177 | the value comes back exactly when it is non-empty and allowed, else the default |
| RequestParams.PickIdempotent | app.py:176-177 | picking the picked value again changes nothing |
| Proxy.FirstMatch | app.py:477-481 | the first origin in table order that the location starts with, or none when no origin matches |
| Proxy.RewriteLocation | app.py:463-482 | an empty location and one matching no origin come back unchanged |
| Proxy.RewriteLocationReplacesOrigin | app.py:477-482 | a changed location is a local path followed by the untouched rest after a matching origin, and no vendor origin is ever left at the head |
| Proxy.OriginsDisjoint | app.py:467-476 | no location matches two origins, so the table order never matters |
| Proxy.RewriteLocationIdempotent | app.py:463-482 | rewriting twice equals rewriting once |
| Proxy.DictSet | app.py:522 | setting a name overwrites that entry in place or appends a new one, every existing entry keeps its position and name, and no other name's value changes |
| Proxy.ForwardRequestHeaders | app.py:514-525 | the forwarded headers end with `Accept-Encoding: identity` |
| Proxy.ForwardRequestHeadersNames | app.py:514-523 | every name appears once, and none before the last entry is hop-by-hop, `host` or `accept-encoding` |
| Proxy.ForwardRequestHeadersValues | app.py:514-525 | each kept name carries the last value the client sent for it, the encoding is `identity`, and every other dropped name is absent |
| Proxy.FilterResponseHeaders | app.py:538-549 | no hop-by-hop, frame-blocking, encoding or length header survives |
| Proxy.FilterResponseKeepsExactly | app.py:538-549 | exactly the other headers survive, in order with their names, unchanged except for rewritten `Location` values |
| Proxy.FilterResponseIdempotent | app.py:538-549 | filtering the filtered headers changes nothing |
| GlobalSeismic.EventIdShape | web/api/global_seismic.py:143 | the id contains no comma; `ids` is leading commas, the id, then nothing or the rest from the next comma; the id is empty iff `ids` is all commas |
| GlobalSeismic.EventId | web/api/global_seismic.py:143 | the event id is comma-free and no longer than `ids` |
| GlobalSeismic.FormatEvent | web/api/global_seismic.py:135-164 | an event comes back exactly when no lookup raises: neither object `null`, ids and both times not `null`, coordinates not `null` and, when given, at least three long; its id is the first of `ids`, its magnitude `mag` with 0 when missing and `null` kept; longitude, latitude and depth are coordinates 0, 1 and 2, or all 0 when coordinates are missing |
| GlobalSeismic.FormatEventWellFormed | web/api/global_seismic.py:138-148 | a complete feature yields its first id, its magnitude (0 when missing, `null` kept) and its position |
| GlobalSeismic.FormatAll | web/api/global_seismic.py:121-126 | the fetch keeps at most one event per feature, each with a magnitude entry, and an event is kept exactly when some feature formats to it |
| GlobalSeismic.FormatAllKeepsOrder | web/api/global_seismic.py:121-126 | the fetch returns, in response order, exactly the events of the features that format, one each |
| GlobalSeismic.FilterEarthquakes | web/api/global_seismic.py:166-172 | error exactly when some magnitude is `null`; otherwise every kept event has magnitude at least the threshold |
| GlobalSeismic.PassingExactly | web/api/global_seismic.py:169-172 | the reference positions are exactly the passing events, in increasing order |
| GlobalSeismic.FilterKeepsExactly | web/api/global_seismic.py:166-172 | the filter returns exactly the passing events, in their original order |
| GlobalSeismic.FilterIdempotent | web/api/global_seismic.py:166-172 | filtering a filtered list changes nothing |
| GlobalSeismic.FilterRaise | web/api/global_seismic.py:166-172 | a higher threshold gives the lower threshold's result filtered again, never more events |
| GlobalSeismic.IsCacheValid | web/api/global_seismic.py:174-179 | no timestamp means invalid; a timestamp not older than the clock is valid; a valid timestamp is less than 300 seconds old |
| GlobalSeismic.GetRecentEarthquakes | web/api/global_seismic.py:37-65 | a valid cache returns its filtered events, or none when the filter raises, and stays unchanged; otherwise the formatted response replaces the cache, takes the current time, and is returned unfiltered |
| GlobalSeismic.CacheServesForTtl | web/api/global_seismic.py:174-179 | after a refill the cache answers for strictly less than 300 seconds and refills at 300 |
| GlobalSeismic.GetStats | web/api/global_seismic.py:228-249 | no events for an empty cache; an error exactly when a magnitude is `null`, with the message of the `float` or `min` call that raises; otherwise the count, extremes that are cached magnitudes bounding all of them, a mean that is the sum over the count and lies between them, and the age of the timestamp |
| GlobalSeismic.NullStatsError | web/api/global_seismic.py:238-244 | one cached event: `float(None)` raises; several: `min` raises at its first comparison, naming the second item's type and `NoneType` when the first is `null`, else `NoneType` and `float` |

## Left out

- The FFT, rfft, Hann window and square roots are not computed. Magnitudes and powers are function parameters, and numpy's numerics are not modelled.
- Welch.WelchAmp2: reports the averaged power `P`, not `sqrt(P)`, because there is no square root over reals here. The square root is monotone, so the mask and the dominant bin are the same.
- Welch.WelchAmp2: requires `nperseg >= 1`. Zero and negative segment lengths take paths through numpy's window and frequency helpers that the model does not follow: a zero length divides by zero in `rfftfreq`, and a negative one passes the length guard. The live route always passes at least 256.
- dB conversion (`log10`), normalisation, `find_peaks`, and the `std` and `rms` statistics are floating-point presentation.
- Floats are exact reals: no NaN, infinity, rounding or float32 decoding of the 12-byte frame.
- Analyzer.Analyze: `signal.hann` is absent from recent scipy, where `analyze` and `compute_fft` fail at that call. The model assumes a scipy that has it.
- The data stub `_get_data_from_device` is out. The analyzer takes the record as a parameter.
- Sockets, the acquisition thread, `time.sleep` and the locks are out. Reads and loop passes are sequential steps, and the outcomes of `connect()` and `recv(12)` are parameters.
- The miniSEED search and loading in app.py (`_raw_dir`, `_latest_mseed_path`, `_load_last_window`) are file I/O plus ObsPy. The live route takes the loader's result as a parameter.
- All Flask, SocketIO and `requests` plumbing is out, including query-string parsing other than `_clamp_int` and `_pick`, and the outgoing request of `_proxy_to`.
- The HTML/JS body rewrite of `_proxy_to` is out: literal replacements plus a regular expression.
- RequestParams.ParseInt: reads ASCII text only. Unicode digits and Unicode whitespace, which Python's `int()` also accepts, are not modelled, and neither is the interpreter's limit on digit count.
- GlobalSeismic.NullStatsError: names every non-`null` magnitude `float`. Python names a JSON integer magnitude, or the default 0 of an event without one, `int`.
- Proxy.Lower: lower-cases ASCII letters only. Header names are ASCII.
- Proxy.ForwardRequestHeadersNames: fixes the name set, the values and the final entry. It does not state the relative order of the other forwarded headers.
- USGS timestamps are converted with `datetime`, and that formatting is left out. Only a `null` time is modelled, as the error it raises. Out-of-range times are not modelled.
- GlobalSeismic.Geometry: coordinates are real numbers. A `null` entry inside the coordinate list cannot be represented, and Python copies it into `longitude`, `latitude` or `depth_km` without raising.
- Fields of an event that are only copied (title, place, url, felt reports, tsunami, status) are left out.
- `get_earthquake_detail` and `search_earthquakes` are network calls whose results feed the same `_format_event`. `last_updated` is an ISO string and is left out.
- The cache is read with one clock value per call.
- web/app.py is routes and websocket handlers only.
- web/api/vendor.py is a constant table.
- web/run.py and ext_pages.py are startup and page routes.
- The scripts are plotting and file conversion.
- None of these four is part of this model.
- app.py module-level behaviour is out:
  - `/api/spectrum`, `/spectrum`, `/education` and `/api/global_quakes` are registered more than once;
  - the naive-DFT `_fft_mag` shadows the windowed one, which is modelled on its own and through the inline copy in the handler;
  - `_fake_wave` refers to an undefined `REAL_ONLY`.
