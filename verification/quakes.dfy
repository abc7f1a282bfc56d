/** The dashboard's global earthquake manager: turning USGS GeoJSON
    features into events, the magnitude filter, the five-minute cache in
    front of the USGS query, and the cache statistics. The USGS response is
    a parameter (`None` when the request or its decoding fails), and so is
    the current time, in seconds. */
module GlobalSeismic {
  import opened Outcomes
  import opened SeqStats

  /** The `properties` members the manager reads (times in milliseconds). */
  datatype Props = Props(ids: Field<string>, mag: Field<real>, time: Field<int>, updated: Field<int>)

  datatype Geometry = Geometry(coordinates: Field<seq<real>>)

  datatype Feature = Feature(properties: Field<Props>, geometry: Field<Geometry>)

  /** A formatted event. The magnitude keeps JSON `null`; `Absent` only
      appears in events that did not come from `_format_event`. */
  datatype Event = Event(eventId: string, magnitude: Field<real>, latitude: real, longitude: real, depthKm: real)

  /** `s.lstrip(',')`. */
  function LStripCommas(s: string): (r: string)
    ensures |r| <= |s| && r == s[|s| - |r|..]
    ensures forall i :: 0 <= i < |s| - |r| ==> s[i] == ','
    ensures |r| > 0 ==> r[0] != ','
  {
    if |s| > 0 && s[0] == ',' then LStripCommas(s[1..]) else s
  }

  /** `s.split(',')[0]`: everything before the first comma. */
  function FirstToken(s: string): (r: string)
    ensures |r| <= |s| && r == s[..|r|]
    ensures forall i :: 0 <= i < |r| ==> r[i] != ','
    ensures |r| < |s| ==> s[|r|] == ','
  {
    if |s| == 0 || s[0] == ',' then "" else [s[0]] + FirstToken(s[1..])
  }

  /** `ids.lstrip(',').split(',')[0]`: the first id of the comma-separated list. */
  function EventId(ids: string): (id: string)
    ensures |id| <= |ids|
    ensures forall i :: 0 <= i < |id| ==> id[i] != ','
  {
    FirstToken(LStripCommas(ids))
  }

  /** `ids` is `lead` commas, then `id`, then `rest`, which is empty or
      starts at the next comma. */
  predicate SplitsAs(ids: string, lead: nat, id: string, rest: string)
  {
    && lead <= |ids| && (forall i :: 0 <= i < lead ==> ids[i] == ',')
    && ids == ids[..lead] + id + rest
    && (rest == "" || rest[0] == ',')
  }

  /** The event id is comma-free; `ids` is some commas, the id, and then
      nothing or the rest of the list from its next comma; the id is empty
      exactly when `ids` holds nothing but commas. */
  lemma EventIdShape(ids: string)
    ensures var id := EventId(ids);
      && (forall i :: 0 <= i < |id| ==> id[i] != ',')
      && (exists lead: nat, rest: string :: SplitsAs(ids, lead, id, rest) && (id == "" ==> rest == ""))
      && (id == "" <==> forall i :: 0 <= i < |ids| ==> ids[i] == ',')
  {
    var lead: nat := |ids| - |LStripCommas(ids)|;
    var rest := LStripCommas(ids)[|EventId(ids)|..];
    EventIdSplit(ids, lead, rest);
    EventIdEmpty(ids);
  }

  lemma {:induction false} EventIdSplit(ids: string, lead: nat, rest: string)
    requires lead == |ids| - |LStripCommas(ids)|
    requires rest == LStripCommas(ids)[|EventId(ids)|..]
    ensures SplitsAs(ids, lead, EventId(ids), rest)
    ensures EventId(ids) == "" ==> rest == ""
  {
    var t := LStripCommas(ids);
    var id := FirstToken(t);
    SplitAt(ids, lead, t, id, rest);
  }

  lemma SplitAt(ids: string, lead: nat, t: string, id: string, rest: string)
    requires lead <= |ids| && t == ids[lead..]
    requires |id| <= |t| && id == t[..|id|] && rest == t[|id|..]
    ensures ids == ids[..lead] + id + rest
  {
    assert t == id + rest;
    assert ids == ids[..lead] + t;
  }

  lemma EventIdEmpty(ids: string)
    ensures EventId(ids) == "" <==> forall i :: 0 <= i < |ids| ==> ids[i] == ','
  {
    var t := LStripCommas(ids);
    if |t| > 0 {
      assert t[0] == ids[|ids| - |t|];
    }
  }

  /** `feature.get('properties', {})`, a `null` object excluded. */
  function PropsOf(f: Feature): Props
  {
    match f.properties
    case Present(p) => p
    case _ => Props(Absent, Absent, Absent, Absent)
  }

  /** `geom.get('coordinates', [0, 0, 0])`, a `null` geometry excluded. */
  function CoordsOf(f: Feature): Field<seq<real>>
  {
    match f.geometry
    case Present(g) => (if g.coordinates.Absent? then Present([0.0, 0.0, 0.0]) else g.coordinates)
    case _ => Present([0.0, 0.0, 0.0])
  }

  /** `props.get('ids', '')`, then the first id; `null` ids excluded. */
  function IdOf(p: Props): string
  {
    match p.ids
    case Present(ids) => EventId(ids)
    case _ => ""
  }

  /** No lookup of `_format_event` raises: neither object is `null`, the ids
      and both times are not `null`, and the coordinates, when given, are a
      list of at least three. */
  predicate Formats(f: Feature)
  {
    && f.properties != Null && f.geometry != Null
    && (f.properties.Present? ==>
          var p := f.properties.value;
          p.ids != Null && p.time != Null && p.updated != Null)
    && (f.geometry.Present? ==>
          var c := f.geometry.value.coordinates;
          c != Null && (c.Present? ==> |c.value| >= 3))
  }

  /** `_format_event`: `None` whenever a lookup raises (a `null` object,
      `null` ids, a coordinate list that is `null` or shorter than three,
      a `null` time); otherwise the GeoJSON position order longitude,
      latitude, depth, and `[0, 0, 0]` when no coordinates are given. */
  function FormatEvent(f: Feature): (r: Option<Event>)
    ensures r.Some? <==> Formats(f)
    ensures r.Some? ==> r.value.eventId == IdOf(PropsOf(f))
    ensures r.Some? && PropsOf(f).mag.Absent? ==> r.value.magnitude == Present(0.0)
    ensures r.Some? && !PropsOf(f).mag.Absent? ==> r.value.magnitude == PropsOf(f).mag
    ensures r.Some? && f.geometry.Present? && f.geometry.value.coordinates.Present? ==>
      var c := f.geometry.value.coordinates.value;
      |c| >= 3 && r.value.longitude == c[0] && r.value.latitude == c[1] && r.value.depthKm == c[2]
    ensures r.Some? && (f.geometry.Absent? || f.geometry.value.coordinates.Absent?) ==>
      r.value.longitude == 0.0 && r.value.latitude == 0.0 && r.value.depthKm == 0.0
    ensures r.Some? ==> r.value.magnitude != Absent
  {
    if f.properties.Null? || f.geometry.Null? then None
    else
      var props := PropsOf(f);
      var coords := CoordsOf(f);
      if props.ids.Null? || coords.Null? || coords.Absent? || |coords.value| < 3 then None
      else if props.time.Null? || props.updated.Null? then None
      else
        var mag := if props.mag.Absent? then Present(0.0) else props.mag;
        Some(Event(IdOf(props), mag, coords.value[1], coords.value[0], coords.value[2]))
  }

  /** A well-formed feature gives its first id, its magnitude (0 when
      missing, `null` kept) and its position. */
  lemma FormatEventWellFormed(ids: string, mag: Field<real>, lon: real, lat: real, depth: real, time: int, updated: int)
    ensures var f := Feature(Present(Props(Present(ids), mag, Present(time), Present(updated))),
                             Present(Geometry(Present([lon, lat, depth]))));
      FormatEvent(f) == Some(Event(EventId(ids), if mag.Absent? then Present(0.0) else mag, lat, lon, depth))
  {
  }

  /** The fetch loop: every feature that formats, in response order. */
  function FormatAll(fs: seq<Feature>): (es: seq<Event>)
    ensures |es| <= |fs|
    ensures forall j :: 0 <= j < |es| ==> es[j].magnitude != Absent
    ensures forall e :: e in es <==> exists i :: 0 <= i < |fs| && FormatEvent(fs[i]) == Some(e)
  {
    if |fs| == 0 then []
    else
      var e := FormatEvent(fs[0]);
      var rest := FormatAll(fs[1..]);
      assert forall e' :: (exists i :: 0 <= i < |fs[1..]| && FormatEvent(fs[1..][i]) == Some(e'))
                      <==> (exists i :: 1 <= i < |fs| && FormatEvent(fs[i]) == Some(e')) by {
        forall e' | exists i :: 1 <= i < |fs| && FormatEvent(fs[i]) == Some(e')
          ensures exists i :: 0 <= i < |fs[1..]| && FormatEvent(fs[1..][i]) == Some(e')
        {
          var i :| 1 <= i < |fs| && FormatEvent(fs[i]) == Some(e');
          assert fs[1..][i - 1] == fs[i];
        }
      }
      (if e.Some? then [e.value] else []) + rest
  }

  /** Positions, from `from` on, of the features that format. */
  function Formatted(fs: seq<Feature>, from: nat): (ks: seq<nat>)
    requires from <= |fs|
    ensures forall j :: 0 <= j < |ks| ==> from <= ks[j] < |fs| && Formats(fs[ks[j]])
    decreases |fs| - from
  {
    if from == |fs| then []
    else if Formats(fs[from]) then [from] + Formatted(fs, from + 1)
    else Formatted(fs, from + 1)
  }

  /** The fetch loop keeps, in response order, exactly one event per
      feature that formats: the event that feature formats to. */
  lemma {:induction false} FormatAllKeepsOrder(fs: seq<Feature>, from: nat)
    requires from <= |fs|
    ensures |FormatAll(fs[from..])| == |Formatted(fs, from)|
    ensures forall j :: 0 <= j < |Formatted(fs, from)| ==>
      Some(FormatAll(fs[from..])[j]) == FormatEvent(fs[Formatted(fs, from)[j]])
    decreases |fs| - from
  {
    if from < |fs| {
      FormatAllKeepsOrder(fs, from + 1);
      var t := fs[from..];
      assert t[0] == fs[from] && t[1..] == fs[from + 1..];
      var e := FormatEvent(fs[from]);
      var rest := FormatAll(fs[from + 1..]);
      var ks' := Formatted(fs, from + 1);
      var r := FormatAll(t);
      var ks := Formatted(fs, from);
      assert r == (if e.Some? then [e.value] else []) + rest;
      if e.Some? {
        assert r == [e.value] + rest && ks == [from] + ks';
        forall j | 0 <= j < |ks|
          ensures Some(r[j]) == FormatEvent(fs[ks[j]])
        {
          if j > 0 {
            assert r[j] == rest[j - 1] && ks[j] == ks'[j - 1];
          }
        }
      } else {
        assert r == rest && ks == ks';
      }
    }
  }

  /** `eq.get('magnitude', 0)`; comparing or converting a `null` raises. */
  function MagnitudeOf(e: Event): Option<real>
  {
    match e.magnitude
    case Absent => Some(0.0)
    case Null => None
    case Present(m) => Some(m)
  }

  /** No event carries a `null` magnitude. */
  predicate NoNull(es: seq<Event>)
  {
    forall i :: 0 <= i < |es| ==> !es[i].magnitude.Null?
  }

  /** The filter's test, for an event with a magnitude. */
  predicate Passes(e: Event, minMagnitude: real)
  {
    MagnitudeOf(e).Some? && MagnitudeOf(e).value >= minMagnitude
  }

  const NullComparison: string := "'>=' not supported between instances of 'NoneType' and 'float'"

  /** `_filter_earthquakes`: the events whose magnitude is at least
      `minMagnitude`, or the `TypeError` a `null` magnitude raises. */
  function FilterEarthquakes(es: seq<Event>, minMagnitude: real): (r: Result<seq<Event>>)
    ensures r.Err? <==> !NoNull(es)
    ensures r.Ok? ==> |r.value| <= |es|
    ensures r.Ok? ==> forall j :: 0 <= j < |r.value| ==> Passes(r.value[j], minMagnitude)
  {
    if |es| == 0 then Ok([])
    else
      match MagnitudeOf(es[0])
      case None => Err(NullComparison)
      case Some(m) =>
        var rest := FilterEarthquakes(es[1..], minMagnitude);
        if rest.Err? then
          assert !NoNull(es) by {
            ghost var i :| 0 <= i < |es[1..]| && es[1..][i].magnitude.Null?;
            assert es[i + 1] == es[1..][i];
          }
          rest
        else if m >= minMagnitude then Ok([es[0]] + rest.value)
        else rest
  }

  /** Positions, from `from` on, of the events that pass the threshold. */
  function Passing(es: seq<Event>, minMagnitude: real, from: nat): (ks: seq<nat>)
    requires from <= |es|
    ensures forall j :: 0 <= j < |ks| ==> from <= ks[j] < |es|
    decreases |es| - from
  {
    if from == |es| then []
    else if Passes(es[from], minMagnitude) then [from] + Passing(es, minMagnitude, from + 1)
    else Passing(es, minMagnitude, from + 1)
  }

  /** The passing positions are exactly those whose event passes, in
      increasing order. */
  lemma {:induction false} PassingExactly(es: seq<Event>, minMagnitude: real, from: nat)
    requires from <= |es|
    ensures var ks := Passing(es, minMagnitude, from);
      && (forall j :: 0 <= j < |ks| ==> Passes(es[ks[j]], minMagnitude))
      && (forall i :: from <= i < |es| && Passes(es[i], minMagnitude) ==> i in ks)
      && (forall j, j' :: 0 <= j < j' < |ks| ==> ks[j] < ks[j'])
  {
    PassingSound(es, minMagnitude, from);
    PassingComplete(es, minMagnitude, from);
    PassingIncreasing(es, minMagnitude, from);
  }

  lemma {:induction false} PassingSound(es: seq<Event>, minMagnitude: real, from: nat)
    requires from <= |es|
    ensures forall j :: 0 <= j < |Passing(es, minMagnitude, from)| ==>
      Passes(es[Passing(es, minMagnitude, from)[j]], minMagnitude)
    decreases |es| - from
  {
    if from < |es| {
      PassingSound(es, minMagnitude, from + 1);
      var ks' := Passing(es, minMagnitude, from + 1);
      var ks := Passing(es, minMagnitude, from);
      assert forall j :: 0 <= j < |ks'| ==> Passes(es[ks'[j]], minMagnitude);
      if Passes(es[from], minMagnitude) {
        assert ks == [from] + ks';
        forall j | 0 <= j < |ks|
          ensures Passes(es[ks[j]], minMagnitude)
        {
          if j > 0 {
            assert ks[j] == ks'[j - 1];
            assert Passes(es[ks'[j - 1]], minMagnitude);
          }
        }
      } else {
        assert ks == ks';
      }
    }
  }

  lemma {:induction false} PassingComplete(es: seq<Event>, minMagnitude: real, from: nat)
    requires from <= |es|
    ensures var ks := Passing(es, minMagnitude, from);
      forall i :: from <= i < |es| && Passes(es[i], minMagnitude) ==> i in ks
    decreases |es| - from
  {
    if from < |es| {
      PassingComplete(es, minMagnitude, from + 1);
      var ks' := Passing(es, minMagnitude, from + 1);
      var ks := Passing(es, minMagnitude, from);
      assert forall i :: from + 1 <= i < |es| && Passes(es[i], minMagnitude) ==> i in ks';
      if Passes(es[from], minMagnitude) {
        assert ks == [from] + ks';
      } else {
        assert ks == ks';
      }
    }
  }

  lemma {:induction false} PassingIncreasing(es: seq<Event>, minMagnitude: real, from: nat)
    requires from <= |es|
    ensures forall j, j' :: 0 <= j < j' < |Passing(es, minMagnitude, from)| ==>
      Passing(es, minMagnitude, from)[j] < Passing(es, minMagnitude, from)[j']
    decreases |es| - from
  {
    if from < |es| {
      PassingIncreasing(es, minMagnitude, from + 1);
      var ks' := Passing(es, minMagnitude, from + 1);
      var ks := Passing(es, minMagnitude, from);
      assert forall j, j' :: 0 <= j < j' < |ks'| ==> ks'[j] < ks'[j'];
      if Passes(es[from], minMagnitude) {
        assert ks == [from] + ks';
        forall j, j' | 0 <= j < j' < |ks|
          ensures ks[j] < ks[j']
        {
          assert ks[j'] == ks'[j' - 1] && from + 1 <= ks'[j' - 1];
          if j > 0 {
            assert ks[j] == ks'[j - 1];
          }
        }
      } else {
        assert ks == ks';
      }
    }
  }

  /** Without `null` magnitudes the filter keeps exactly the passing events,
      in their original order. */
  lemma {:induction false} FilterKeepsExactly(es: seq<Event>, minMagnitude: real)
    requires NoNull(es)
    ensures var r := FilterEarthquakes(es, minMagnitude).value; var ks := Passing(es, minMagnitude, 0);
      && |r| == |ks|
      && (forall j :: 0 <= j < |ks| ==> r[j] == es[ks[j]])
    decreases |es|
  {
    if |es| > 0 {
      assert NoNull(es[1..]) by {
        forall i | 0 <= i < |es[1..]|
          ensures !es[1..][i].magnitude.Null?
        {
          assert es[1..][i] == es[i + 1];
        }
      }
      FilterKeepsExactly(es[1..], minMagnitude);
      PassingShift(es, minMagnitude, 1);
      var rest := FilterEarthquakes(es[1..], minMagnitude).value;
      var ks' := Passing(es[1..], minMagnitude, 0);
      var a' := Passing(es, minMagnitude, 1);
      var r := FilterEarthquakes(es, minMagnitude).value;
      var ks := Passing(es, minMagnitude, 0);
      forall j | 0 <= j < |ks'|
        ensures rest[j] == es[a'[j]]
      {
        assert es[1..][ks'[j]] == es[ks'[j] + 1];
      }
      if Passes(es[0], minMagnitude) {
        assert r == [es[0]] + rest && ks == [0] + a';
        forall j | 1 <= j < |ks|
          ensures r[j] == es[ks[j]]
        {
          assert r[j] == rest[j - 1] && ks[j] == a'[j - 1];
        }
      } else {
        assert r == rest && ks == a';
      }
    }
  }

  /** Passing positions of `es[1..]` are those of `es` from 1, less one. */
  lemma {:induction false} PassingShift(es: seq<Event>, minMagnitude: real, from: nat)
    requires 1 <= from <= |es|
    ensures |Passing(es, minMagnitude, from)| == |Passing(es[1..], minMagnitude, from - 1)|
    ensures forall j :: 0 <= j < |Passing(es, minMagnitude, from)| ==>
      Passing(es, minMagnitude, from)[j] == Passing(es[1..], minMagnitude, from - 1)[j] + 1
    decreases |es| - from
  {
    if from < |es| {
      var tail := es[1..];
      assert tail[from - 1] == es[from];
      PassingShift(es, minMagnitude, from + 1);
      var a' := Passing(es, minMagnitude, from + 1);
      var b' := Passing(tail, minMagnitude, from);
      if Passes(es[from], minMagnitude) {
        var a := Passing(es, minMagnitude, from);
        var b := Passing(tail, minMagnitude, from - 1);
        assert a == [from] + a';
        assert b == [from - 1] + b';
        forall j | 0 <= j < |a|
          ensures a[j] == b[j] + 1
        {
          if j > 0 {
            assert a[j] == a'[j - 1] && b[j] == b'[j - 1];
          }
        }
      } else {
        assert Passing(es, minMagnitude, from) == a';
        assert Passing(tail, minMagnitude, from - 1) == b';
      }
    }
  }

  /** Filtering a filtered list changes nothing. */
  lemma {:induction false} FilterIdempotent(es: seq<Event>, minMagnitude: real)
    requires NoNull(es)
    ensures var r := FilterEarthquakes(es, minMagnitude).value;
      FilterEarthquakes(r, minMagnitude) == Ok(r)
    decreases |es|
  {
    FilterRaise(es, minMagnitude, minMagnitude);
  }

  /** Raising the threshold never adds events: filtering at the higher
      threshold is filtering the lower threshold's result again. */
  lemma {:induction false} FilterRaise(es: seq<Event>, lo: real, hi: real)
    requires NoNull(es) && lo <= hi
    ensures var low := FilterEarthquakes(es, lo).value;
      && FilterEarthquakes(low, hi) == FilterEarthquakes(es, hi)
      && |FilterEarthquakes(es, hi).value| <= |low|
    decreases |es|
  {
    if |es| > 0 {
      assert NoNull(es[1..]) by {
        forall i | 0 <= i < |es[1..]|
          ensures !es[1..][i].magnitude.Null?
        {
          assert es[1..][i] == es[i + 1];
        }
      }
      FilterRaise(es[1..], lo, hi);
      var low := FilterEarthquakes(es, lo).value;
      var m := MagnitudeOf(es[0]).value;
      if m >= lo {
        assert low[1..] == FilterEarthquakes(es[1..], lo).value;
      }
    }
  }

  /** The cache TTL, in seconds. */
  const CacheTtl: real := 300.0

  /** `_is_cache_valid`: a timestamp younger than five minutes, strictly. */
  function IsCacheValid(timestamp: Option<real>, now: real): (valid: bool)
    ensures timestamp.None? ==> !valid
    ensures timestamp.Some? && now <= timestamp.value ==> valid
    ensures valid ==> now < timestamp.value + CacheTtl
  {
    timestamp.Some? && now - timestamp.value < CacheTtl
  }

  datatype Cache = Cache(events: seq<Event>, timestamp: Option<real>)

  /** `GlobalSeismicManager.__init__`. */
  const InitialCache: Cache := Cache([], None)

  datatype Fetch = Fetch(cache: Cache, result: seq<Event>)

  /** `get_recent_earthquakes`: a valid cache answers with its filtered
      events (none when the filter raises) and stays as it is; otherwise
      the USGS response replaces cache and timestamp and is returned as it
      came, without the local filter. */
  function GetRecentEarthquakes(c: Cache, minMagnitude: real, now: real, response: Option<seq<Feature>>): (r: Fetch)
    ensures IsCacheValid(c.timestamp, now) ==> r.cache == c
    ensures IsCacheValid(c.timestamp, now) && NoNull(c.events) ==> r.result == FilterEarthquakes(c.events, minMagnitude).value
    ensures IsCacheValid(c.timestamp, now) && !NoNull(c.events) ==> r.result == []
    ensures !IsCacheValid(c.timestamp, now) ==> r.cache.timestamp == Some(now) && r.result == r.cache.events
    ensures !IsCacheValid(c.timestamp, now) && response.None? ==> r.result == []
    ensures !IsCacheValid(c.timestamp, now) && response.Some? ==> r.result == FormatAll(response.value)
  {
    if IsCacheValid(c.timestamp, now) then
      var filtered := FilterEarthquakes(c.events, minMagnitude);
      Fetch(c, if filtered.Ok? then filtered.value else [])
    else
      var fetched := if response.Some? then FormatAll(response.value) else [];
      Fetch(Cache(fetched, Some(now)), fetched)
  }

  /** A refill is served from the cache for the next five minutes and
      not a moment longer; within them the result is the refill's events
      that pass the threshold in force then. */
  lemma CacheServesForTtl(c: Cache, min1: real, t: real, response: Option<seq<Feature>>, min2: real, t2: real, response2: Option<seq<Feature>>)
    requires !IsCacheValid(c.timestamp, t) && t <= t2
    ensures var first := GetRecentEarthquakes(c, min1, t, response);
      var second := GetRecentEarthquakes(first.cache, min2, t2, response2);
      && (t2 < t + CacheTtl ==> second.cache == first.cache)
      && (t2 < t + CacheTtl && NoNull(first.result) ==> second.result == FilterEarthquakes(first.result, min2).value)
      && (t2 < t + CacheTtl && !NoNull(first.result) ==> second.result == [])
      && (t2 >= t + CacheTtl ==> second.cache.timestamp == Some(t2))
  {
  }

  datatype QuakeStats =
    | NoEvents
    | Summary(totalEvents: nat, magnitudeMin: real, magnitudeMax: real, magnitudeMean: real, cacheAgeSeconds: Option<real>)

  const NullConversion: string := "float() argument must be a string or a real number, not 'NoneType'"

  /** The `TypeError` of `a < b` between two unorderable operands. */
  function LessThanError(a: string, b: string): string
  {
    "'<' not supported between instances of '" + a + "' and '" + b + "'"
  }

  /** Python's type name of a cached magnitude. */
  function TypeName(m: Option<real>): string
  {
    if m.None? then "NoneType" else "float"
  }

  /** The exception `float(min(magnitudes))` raises when some magnitude is
      `null`. `min` compares each later item against the smallest so far,
      `item < smallest`: a single `None` goes through `min` and `float`
      rejects it; otherwise the first comparison fails, between the second
      item and a `None` first item, or else between the first `None` and a
      number. */
  function NullStatsError(es: seq<Event>): (msg: string)
    requires !NoNull(es)
    ensures |es| == 1 ==> msg == NullConversion
    ensures |es| > 1 && MagnitudeOf(es[0]).None? ==> msg == LessThanError(TypeName(MagnitudeOf(es[1])), "NoneType")
    ensures |es| > 1 && MagnitudeOf(es[0]).Some? ==> msg == LessThanError("NoneType", "float")
  {
    if |es| == 1 then NullConversion
    else if MagnitudeOf(es[0]).None? then LessThanError(TypeName(MagnitudeOf(es[1])), "NoneType")
    else LessThanError("NoneType", "float")
  }

  /** The cached magnitudes, `null` excluded by the caller. */
  function Magnitudes(es: seq<Event>): (ms: seq<real>)
    requires NoNull(es)
    ensures |ms| == |es|
    ensures forall i :: 0 <= i < |es| ==> Some(ms[i]) == MagnitudeOf(es[i])
  {
    seq(|es|, i requires 0 <= i < |es| => MagnitudeOf(es[i]).value)
  }

  /** `get_stats`: nothing for an empty cache; otherwise count, extremes,
      mean and age of the cached magnitudes; a `null` one raises. */
  function GetStats(c: Cache, now: real): (r: Result<QuakeStats>)
    ensures r.Err? <==> !NoNull(c.events)
    ensures r.Err? ==> r.message == NullStatsError(c.events)
    ensures c.events == [] ==> r == Ok(NoEvents)
    ensures r.Ok? && c.events != [] ==>
      var s := r.value;
      && s.Summary?
      && s.totalEvents == |c.events|
      && s.magnitudeMin <= s.magnitudeMean <= s.magnitudeMax
      && s.magnitudeMean == Sum(Magnitudes(c.events)) / (|c.events| as real)
      && (forall i :: 0 <= i < |c.events| ==> s.magnitudeMin <= MagnitudeOf(c.events[i]).value <= s.magnitudeMax)
      && (exists i :: 0 <= i < |c.events| && MagnitudeOf(c.events[i]).value == s.magnitudeMin)
      && (exists i :: 0 <= i < |c.events| && MagnitudeOf(c.events[i]).value == s.magnitudeMax)
      && (c.timestamp.Some? <==> s.cacheAgeSeconds.Some?)
      && (c.timestamp.Some? ==> s.cacheAgeSeconds.value == now - c.timestamp.value)
  {
    if c.events == [] then Ok(NoEvents)
    else if !NoNull(c.events) then Err(NullStatsError(c.events))
    else
      var ms := Magnitudes(c.events);
      MeanBetweenMinMax(ms);
      Ok(Summary(|c.events|, Min(ms), Max(ms), Mean(ms),
                 if c.timestamp.Some? then Some(now - c.timestamp.value) else None))
  }
}
