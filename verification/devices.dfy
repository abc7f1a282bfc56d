/** Geotiny seismometer devices: three bounded sample buffers per device,
    the append path of a socket read, buffer snapshots and status, the
    device manager's waveform lookups, and the per-device reconnect counter
    of the acquisition loop. Sockets, threads, locks and clocks are replaced
    by explicit parameters; every step is a pure function of its inputs. */
module Devices {
  import opened Outcomes
  import opened SeqStats
  import RingBuffer

  /** 30 seconds at 100 Hz. */
  const BufferSize: nat := 3000
  const SamplingRate: int := 100
  /** Idle loop passes between reconnect attempts. */
  const RetryLimit: int := 10

  datatype Device = Device(
    deviceId: string,
    ipAddress: string,
    port: int,
    connected: bool,
    x: seq<real>,
    y: seq<real>,
    z: seq<real>,
    lastDataReceived: Option<real>)

  /** The buffers grow together and never exceed their bound. */
  predicate Valid(d: Device)
  {
    |d.x| == |d.y| == |d.z| <= BufferSize
  }

  predicate SameBuffers(d: Device, e: Device)
  {
    d.x == e.x && d.y == e.y && d.z == e.z
  }

  /** `GeotinyDevice.__init__`: disconnected, with three empty buffers. */
  function NewDevice(deviceId: string, ipAddress: string, port: int): (d: Device)
    ensures Valid(d) && !d.connected
    ensures d.x == [] && d.y == [] && d.z == [] && d.lastDataReceived == None
    ensures d.deviceId == deviceId && d.ipAddress == ipAddress && d.port == port
  {
    Device(deviceId, ipAddress, port, false, [], [], [], None)
  }

  /** One x/y/z reading. */
  datatype Sample3 = Sample3(x: real, y: real, z: real)

  /** What one `socket.recv(12)` produced: a complete 12-byte frame (carrying
      its three decoded float32 values), fewer bytes, a timeout, or any other
      socket error. */
  datatype Recv = Full(sample: Sample3) | Short(length: nat) | Timeout | OtherError

  datatype ReadStep = ReadStep(device: Device, value: Option<Sample3>)

  /** `GeotinyDevice.read_data`. `connectOk` is the outcome of the `connect()`
      made when the device is disconnected, `recv` what the socket returned,
      `now` the clock reading stored as `last_data_received`. */
  function ReadData(d: Device, connectOk: bool, recv: Recv, now: real): (r: ReadStep)
    requires Valid(d)
    ensures Valid(r.device)
    ensures r.value.Some? <==> (d.connected || connectOk) && recv.Full?
    ensures r.value.Some? ==>
      && r.value.value == recv.sample
      && r.device.x == RingBuffer.Append(d.x, BufferSize, recv.sample.x)
      && r.device.y == RingBuffer.Append(d.y, BufferSize, recv.sample.y)
      && r.device.z == RingBuffer.Append(d.z, BufferSize, recv.sample.z)
      && r.device.lastDataReceived == Some(now)
      && r.device.connected
    ensures r.value.None? ==>
      SameBuffers(r.device, d) && r.device.lastDataReceived == d.lastDataReceived
    ensures r.value.None? ==>
      (r.device.connected <==> (d.connected || connectOk) && recv.Short?)
    ensures r.device.deviceId == d.deviceId
  {
    var d1 := if d.connected then d else d.(connected := connectOk);
    if !d1.connected then ReadStep(d1, None)
    else
      match recv
      case Full(s) =>
        var d2 := d1.(
          x := RingBuffer.Append(d1.x, BufferSize, s.x),
          y := RingBuffer.Append(d1.y, BufferSize, s.y),
          z := RingBuffer.Append(d1.z, BufferSize, s.z),
          lastDataReceived := Some(now));
        ReadStep(d2, Some(s))
      case Short(_) => ReadStep(d1, None)
      case Timeout => ReadStep(d1.(connected := false), None)
      case OtherError => ReadStep(d1.(connected := false), None)
  }

  /** `GeotinyDevice.get_buffer`: a copy of one channel, empty for an unknown name. */
  function GetBuffer(d: Device, channel: string): (r: seq<real>)
    ensures channel == "X" ==> r == d.x
    ensures channel == "Y" ==> r == d.y
    ensures channel == "Z" ==> r == d.z
    ensures channel !in {"X", "Y", "Z"} ==> r == []
    ensures Valid(d) ==> |r| <= |d.z|
  {
    if channel == "X" then d.x
    else if channel == "Y" then d.y
    else if channel == "Z" then d.z
    else []
  }

  datatype Status = Status(
    deviceId: string,
    ipAddress: string,
    connected: bool,
    lastData: Option<real>,
    bufferSamples: nat,
    samplingRate: int)

  /** `GeotinyDevice.get_status`: the Z count stands for all three channels. */
  function GetStatus(d: Device): (r: Status)
    requires Valid(d)
    ensures r.bufferSamples == |GetBuffer(d, "X")| == |GetBuffer(d, "Y")| == |GetBuffer(d, "Z")|
    ensures r.bufferSamples <= BufferSize
    ensures r.connected == d.connected && r.lastData == d.lastDataReceived
    ensures r.samplingRate == SamplingRate
  {
    Status(d.deviceId, d.ipAddress, d.connected, d.lastDataReceived, |d.z|, SamplingRate)
  }

  /** `DeviceManager.initialize` without starting the thread: the three
      configured devices, fresh. */
  function InitialDevices(): (m: map<string, Device>)
    ensures m.Keys == {"device_1", "device_2", "device_3"}
    ensures forall id :: id in m ==> Valid(m[id]) && !m[id].connected && m[id].z == [] && m[id].deviceId == id
  {
    map[
      "device_1" := NewDevice("device_1", "192.168.1.100", 8080),
      "device_2" := NewDevice("device_2", "192.168.1.101", 8080),
      "device_3" := NewDevice("device_3", "192.168.1.102", 8080)]
  }

  datatype Waveform = Waveform(
    deviceId: string,
    channel: string,
    samplingRate: int,
    data: seq<real>,
    times: seq<real>,
    ampMin: real,
    ampMax: real)

  /** Python's `buffer[-samples:]`, including its clamping and `-0 == 0`. */
  function SliceFromNegated(buf: seq<real>, samples: int): (r: seq<real>)
  {
    var start := -samples;
    var i := if start < 0 then (if |buf| + start < 0 then 0 else |buf| + start)
             else (if start > |buf| then |buf| else start);
    buf[i..]
  }

  /** The "last N samples" step: `buffer[-samples:]` when the buffer is
      longer than `samples`, the whole buffer otherwise. */
  function LatestSlice(buf: seq<real>, samples: int): (r: seq<real>)
    ensures |r| <= |buf| && r == buf[|buf| - |r|..]
    ensures r == [] <==> |buf| == 0 || |buf| <= -samples
    ensures samples > 0 ==> r == RingBuffer.Newest(buf, samples)
    ensures samples == 0 ==> r == buf
    ensures samples < 0 ==> r == buf[(if -samples <= |buf| then -samples else |buf|)..]
  {
    if |buf| > samples then SliceFromNegated(buf, samples) else buf
  }

  /** Sample interval `1.0 / sampling_rate`. */
  const Dt: real := 1.0 / (SamplingRate as real)

  /** `np.arange(count) * dt - total * dt`, the time axis of a waveform of
      `count` samples taken from a buffer of `total`. */
  function TimeAxis(count: nat, total: nat): (t: seq<real>)
    ensures |t| == count
  {
    seq(count, i requires 0 <= i < count => (i as real) * Dt - (total as real) * Dt)
  }

  /** The axis starts at `-total * dt` and advances by one sample interval per sample. */
  lemma TimeAxisSpacing(count: nat, total: nat)
    requires count > 0
    ensures TimeAxis(count, total)[0] == -(total as real) * Dt
    ensures forall i :: 0 <= i < count - 1 ==> TimeAxis(count, total)[i + 1] - TimeAxis(count, total)[i] == Dt
  {
  }

  /** The axis ends one interval before the end of the buffer exactly when it
      covers the whole buffer: for a truncated waveform it stays anchored at
      the START of the buffer, not at its end. */
  lemma TimeAxisEndsAtBufferEndIffWhole(count: nat, total: nat)
    requires count > 0
    ensures TimeAxis(count, total)[count - 1] == -Dt <==> count == total
  {
    var t := TimeAxis(count, total);
    assert t[count - 1] == ((count - 1 - total) as real) * Dt;
  }

  /** `DeviceManager.get_latest_waveform`. `Ok(None)` is the `None` return;
      `Err` is the exception `np.min` raises on an empty slice. */
  function LatestWaveform(devices: map<string, Device>, deviceId: string, channel: string, samples: int)
    : (r: Result<Option<Waveform>>)
    ensures deviceId !in devices ==> r == Ok(None)
    ensures deviceId in devices && GetBuffer(devices[deviceId], channel) == [] ==> r == Ok(None)
    ensures r.Ok? && r.value.Some? ==>
      var w := r.value.value;
      var buf := GetBuffer(devices[deviceId], channel);
      && deviceId in devices
      && 0 < |w.data| <= |buf|
      && w.data == buf[|buf| - |w.data|..]
      && w.times == TimeAxis(|w.data|, |buf|)
      && w.ampMin <= w.ampMax
      && w.ampMin in w.data && w.ampMax in w.data
      && (forall i :: 0 <= i < |w.data| ==> w.ampMin <= w.data[i] <= w.ampMax)
      && w.deviceId == deviceId && w.channel == channel && w.samplingRate == SamplingRate
    ensures r.Err? <==>
      deviceId in devices && 0 < |GetBuffer(devices[deviceId], channel)| <= -samples
  {
    if deviceId !in devices then Ok(None)
    else
      var buf := GetBuffer(devices[deviceId], channel);
      if |buf| == 0 then Ok(None)
      else
        var data := LatestSlice(buf, samples);
        if |data| == 0 then Err("zero-size array to reduction operation minimum which has no identity")
        else
          Ok(Some(Waveform(deviceId, channel, SamplingRate, data, TimeAxis(|data|, |buf|), Min(data), Max(data))))
  }

  /** With a positive count the waveform is the newest `min(samples, len)`
      samples of the channel, in order. */
  lemma LatestWaveformIsNewest(devices: map<string, Device>, deviceId: string, channel: string, samples: int)
    requires deviceId in devices && samples > 0
    requires GetBuffer(devices[deviceId], channel) != []
    ensures LatestWaveform(devices, deviceId, channel, samples).Ok?
    ensures LatestWaveform(devices, deviceId, channel, samples).value.Some?
    ensures LatestWaveform(devices, deviceId, channel, samples).value.value.data
         == RingBuffer.Newest(GetBuffer(devices[deviceId], channel), samples)
  {
    var buf := GetBuffer(devices[deviceId], channel);
    assert LatestSlice(buf, samples) == RingBuffer.Newest(buf, samples) != [];
  }

  /** A count of zero returns the whole buffer, because `buffer[-0:]` is `buffer[0:]`. */
  lemma ZeroSamplesGivesWholeBuffer(devices: map<string, Device>, deviceId: string, channel: string)
    requires deviceId in devices
    requires GetBuffer(devices[deviceId], channel) != []
    ensures LatestWaveform(devices, deviceId, channel, 0).Ok?
    ensures LatestWaveform(devices, deviceId, channel, 0).value.Some?
    ensures LatestWaveform(devices, deviceId, channel, 0).value.value.data == GetBuffer(devices[deviceId], channel)
  {
  }

  datatype MultiWaveform = MultiWaveform(deviceId: string, x: Option<Waveform>, y: Option<Waveform>, z: Option<Waveform>)

  /** `DeviceManager.get_multi_channel_waveform`: the three channel lookups,
      or `None` for an unknown device. */
  function MultiChannelWaveform(devices: map<string, Device>, deviceId: string, samples: int)
    : (r: Result<Option<MultiWaveform>>)
    ensures deviceId !in devices ==> r == Ok(None)
    ensures deviceId in devices && samples > 0 ==> r.Ok? && r.value.Some?
    ensures deviceId in devices ==> (r.Ok? <==>
      && LatestWaveform(devices, deviceId, "X", samples).Ok?
      && LatestWaveform(devices, deviceId, "Y", samples).Ok?
      && LatestWaveform(devices, deviceId, "Z", samples).Ok?)
    ensures deviceId in devices && r.Ok? ==> r.value.Some?
    ensures deviceId in devices && LatestWaveform(devices, deviceId, "X", samples).Err? ==>
      r == Err(LatestWaveform(devices, deviceId, "X", samples).message)
    ensures r.Ok? && r.value.Some? ==>
      var m := r.value.value;
      && deviceId in devices && m.deviceId == deviceId
      && Ok(m.x) == LatestWaveform(devices, deviceId, "X", samples)
      && Ok(m.y) == LatestWaveform(devices, deviceId, "Y", samples)
      && Ok(m.z) == LatestWaveform(devices, deviceId, "Z", samples)
  {
    if deviceId !in devices then Ok(None)
    else
      var wx := LatestWaveform(devices, deviceId, "X", samples);
      var wy := LatestWaveform(devices, deviceId, "Y", samples);
      var wz := LatestWaveform(devices, deviceId, "Z", samples);
      if wx.Err? then Err(wx.message)
      else if wy.Err? then Err(wy.message)
      else if wz.Err? then Err(wz.message)
      else Ok(Some(MultiWaveform(deviceId, wx.value, wy.value, wz.value)))
  }

  /** With a positive count a known device's channel yields a waveform
      exactly when its buffer is non-empty, of `min(samples, len)` samples. */
  lemma LatestWaveformLength(devices: map<string, Device>, deviceId: string, channel: string, samples: int)
    requires deviceId in devices && samples > 0
    ensures var r := LatestWaveform(devices, deviceId, channel, samples);
      var n := |GetBuffer(devices[deviceId], channel)|;
      && r.Ok? && (r.value.Some? <==> n > 0)
      && (r.value.Some? ==> |r.value.value.data| == (if n <= samples then n else samples))
  {
    var buf := GetBuffer(devices[deviceId], channel);
    assert |LatestSlice(buf, samples)| == (if |buf| <= samples then |buf| else samples);
  }

  /** On a valid device the three channels are all present or all absent,
      and present ones have the same number of samples. */
  lemma {:induction false} MultiChannelAligned(devices: map<string, Device>, deviceId: string, samples: int)
    requires deviceId in devices && Valid(devices[deviceId]) && samples > 0
    ensures
      var m := MultiChannelWaveform(devices, deviceId, samples).value.value;
      && (m.x.Some? <==> m.z.Some?) && (m.y.Some? <==> m.z.Some?)
      && (m.z.Some? ==> |m.x.value.data| == |m.y.value.data| == |m.z.value.data|)
  {
    var d := devices[deviceId];
    LatestWaveformLength(devices, deviceId, "X", samples);
    LatestWaveformLength(devices, deviceId, "Y", samples);
    LatestWaveformLength(devices, deviceId, "Z", samples);
    assert |GetBuffer(d, "X")| == |GetBuffer(d, "Y")| == |GetBuffer(d, "Z")|;
    var m := MultiChannelWaveform(devices, deviceId, samples).value.value;
    assert Ok(m.x) == LatestWaveform(devices, deviceId, "X", samples);
    assert Ok(m.y) == LatestWaveform(devices, deviceId, "Y", samples);
    assert Ok(m.z) == LatestWaveform(devices, deviceId, "Z", samples);
  }

  /** One device's entry in the acquisition loop: the device and its
      `retry_count`. */
  datatype Slot = Slot(device: Device, retries: int)

  /** What the outside world does during one loop pass for one device. */
  datatype Tick = Tick(connectOk: bool, recv: Recv, now: real)

  datatype TickResult = TickResult(slot: Slot, attemptedConnect: bool, value: Option<Sample3>)

  /** One pass of `_acquisition_loop` over one device: a disconnected device
      counts passes and calls `connect()` once the count reaches the limit; a
      connected one is read, and a successful read resets the count. */
  function AcquisitionTick(s: Slot, t: Tick): (r: TickResult)
    requires Valid(s.device)
    ensures Valid(r.slot.device)
    ensures r.attemptedConnect <==> !s.device.connected && s.retries >= RetryLimit
    ensures r.attemptedConnect ==>
      r.slot.retries == 0 && r.slot.device.connected == t.connectOk && SameBuffers(r.slot.device, s.device)
    ensures !s.device.connected && s.retries < RetryLimit ==>
      r.slot.retries == s.retries + 1 && r.slot.device == s.device
    ensures s.device.connected ==>
      && r.slot.device == ReadData(s.device, t.connectOk, t.recv, t.now).device
      && r.value == ReadData(s.device, t.connectOk, t.recv, t.now).value
      && r.slot.retries == (if t.recv.Full? then 0 else s.retries)
    ensures r.value.None? ==> SameBuffers(r.slot.device, s.device)
    ensures r.value.Some? ==>
      && r.slot.device.x == RingBuffer.Append(s.device.x, BufferSize, r.value.value.x)
      && r.slot.device.y == RingBuffer.Append(s.device.y, BufferSize, r.value.value.y)
      && r.slot.device.z == RingBuffer.Append(s.device.z, BufferSize, r.value.value.z)
  {
    if !s.device.connected then
      if s.retries >= RetryLimit then
        TickResult(Slot(s.device.(connected := t.connectOk), 0), true, None)
      else
        TickResult(Slot(s.device, s.retries + 1), false, None)
    else
      var step := ReadData(s.device, t.connectOk, t.recv, t.now);
      TickResult(Slot(step.device, if step.value.Some? then 0 else s.retries), false, step.value)
  }

  /** The counter stays in `[0, 10]`, and within that range a reconnect is
      attempted exactly when it has reached 10. */
  lemma RetryCounterBounded(s: Slot, t: Tick)
    requires Valid(s.device) && 0 <= s.retries <= RetryLimit
    ensures 0 <= AcquisitionTick(s, t).slot.retries <= RetryLimit
    ensures AcquisitionTick(s, t).attemptedConnect <==> !s.device.connected && s.retries == RetryLimit
  {
  }

  /** The reading one pass took, as a list of zero or one samples. */
  function Emitted(v: Option<Sample3>): seq<Sample3>
  {
    if v.Some? then [v.value] else []
  }

  /** The loop run over a sequence of passes: the final slot and the readings
      taken, oldest first. */
  function Run(s: Slot, ticks: seq<Tick>): (r: (Slot, seq<Sample3>))
    requires Valid(s.device)
    ensures Valid(r.0.device)
    ensures |r.1| <= |ticks|
    ensures !s.device.connected && |ticks| <= RetryLimit - s.retries ==> r == (Slot(s.device, s.retries + |ticks|), [])
    decreases |ticks|
  {
    if |ticks| == 0 then (s, [])
    else
      var step := AcquisitionTick(s, ticks[0]);
      var rest := Run(step.slot, ticks[1..]);
      (rest.0, Emitted(step.value) + rest.1)
  }

  function Zs(samples: seq<Sample3>): (r: seq<real>)
    ensures |r| == |samples|
  {
    seq(|samples|, i requires 0 <= i < |samples| => samples[i].z)
  }

  lemma ZsAppend(a: seq<Sample3>, b: seq<Sample3>)
    ensures Zs(a + b) == Zs(a) + Zs(b)
  {
    assert forall i :: 0 <= i < |a + b| ==> Zs(a + b)[i] == (Zs(a) + Zs(b))[i];
  }

  /** One pass leaves the Z buffer holding the newest 3000 values of its old
      contents followed by the value read, if any. */
  lemma TickKeepsNewestZ(s: Slot, t: Tick)
    requires Valid(s.device)
    ensures var r := AcquisitionTick(s, t);
      r.slot.device.z == RingBuffer.Newest(s.device.z + Zs(Emitted(r.value)), BufferSize)
  {
    var r := AcquisitionTick(s, t);
    var z0 := s.device.z;
    if r.value.Some? {
      RingBuffer.AppendKeepsNewest(z0, BufferSize, r.value.value.z);
      assert Zs(Emitted(r.value)) == [r.value.value.z];
    } else {
      assert Zs(Emitted(r.value)) == [] && z0 + [] == z0;
    }
  }

  /** Starting from a counter in range, every pass keeps it in range. */
  lemma {:induction false} RunKeepsCounter(s: Slot, ticks: seq<Tick>)
    requires Valid(s.device) && 0 <= s.retries <= RetryLimit
    ensures 0 <= Run(s, ticks).0.retries <= RetryLimit
    decreases |ticks|
  {
    if |ticks| > 0 {
      var step := AcquisitionTick(s, ticks[0]);
      RetryCounterBounded(s, ticks[0]);
      RunKeepsCounter(step.slot, ticks[1..]);
    }
  }

  /** Starting from a counter in range, every pass keeps it in range and the
      Z buffer always holds exactly the newest 3000 values of its old
      contents followed by every Z value read. */
  lemma RunKeepsNewest(s: Slot, ticks: seq<Tick>)
    requires Valid(s.device) && 0 <= s.retries <= RetryLimit
    ensures 0 <= Run(s, ticks).0.retries <= RetryLimit
    ensures Run(s, ticks).0.device.z == RingBuffer.Newest(s.device.z + Zs(Run(s, ticks).1), BufferSize)
  {
    RunKeepsCounter(s, ticks);
    RunKeepsZ(s, ticks);
  }

  lemma {:induction false} RunKeepsZ(s: Slot, ticks: seq<Tick>)
    requires Valid(s.device)
    ensures Run(s, ticks).0.device.z == RingBuffer.Newest(s.device.z + Zs(Run(s, ticks).1), BufferSize)
    decreases |ticks|
  {
    if |ticks| == 0 {
      assert s.device.z + Zs([]) == s.device.z;
    } else {
      var step := AcquisitionTick(s, ticks[0]);
      var rest := Run(step.slot, ticks[1..]);
      RunKeepsZ(step.slot, ticks[1..]);
      TickKeepsNewestZ(s, ticks[0]);
      RingBuffer.NewestCompose(s.device.z, Zs(Emitted(step.value)), Zs(rest.1), step.slot.device.z, BufferSize);
      ZsAppend(Emitted(step.value), rest.1);
    }
  }
}
