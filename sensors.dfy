/**
 * SensorManager: owns the active sensors, rebuilds them from the "sensors"
 * array of the configuration, polls each one at its own interval and publishes
 * the cached values as a JSON snapshot.
 *
 * Hardware is an input: `Hardware` says what the DHT probe, the ADC and the
 * digital pins answer; one such value serves a whole polling pass.
 */
module Sensors {
  import opened Wrappers
  import opened Clock
  import opened Text
  import Snapshot

  const DEFAULT_INTERVAL: int := 2000
  /** The probe model every DHT driver object is built for (DHT11). */
  const DHT11: int := 11

  /** One element of the configuration's "sensors" array, as parsed; absent fields are None. */
  datatype SensorSpec = SensorSpec(name: Option<string>, driver: string, pin: Option<int>, intervalMs: Option<int>)

  /** The read behaviours the driver tag selects. */
  datatype Kind = TemperatureProbe | AnalogLight | AnalogPot | DigitalInput | Unsupported

  function KindOf(driver: string): (k: Kind)
    ensures k == TemperatureProbe <==> driver == "DHT"
    ensures k == AnalogLight <==> driver == "LDR"
    ensures k == AnalogPot <==> driver == "POT"
    ensures k == DigitalInput <==> driver == "DIGITAL"
  {
    if driver == "DHT" then TemperatureProbe
    else if driver == "LDR" then AnalogLight
    else if driver == "POT" then AnalogPot
    else if driver == "DIGITAL" then DigitalInput
    else Unsupported
  }

  /** The DHT driver object a "DHT" sensor owns. */
  class DhtProbe {
    const pin: int
    const model: int

    constructor (pin: int)
      ensures this.pin == pin && model == DHT11
    {
      this.pin := pin;
      model := DHT11;
    }
  }

  /** A temperature read: the probe answers NaN when the bus transaction fails. */
  datatype Temperature = NaN | Celsius(degrees: real)

  /** What the hardware answers, by pin, during one polling pass. */
  datatype Hardware = Hardware(temperature: int -> Temperature, analog: int -> int, digital: int -> bool)

  /** `SensorInstance`: `probe` is the owned driver object (`obj`), None for a null pointer. */
  datatype Sensor = Sensor(
    id: nat,
    name: string,
    driver: string,
    pin: int,
    lastReadTime: Millis,
    interval: Millis,
    lastValue: real,
    probe: Option<DhtProbe>)

  /** A DHT sensor owns a probe on its own pin, and no other sensor owns one. */
  predicate WellFormed(s: Sensor)
  {
    && (s.probe.Some? <==> s.driver == "DHT")
    && (s.probe.Some? ==> s.probe.value.pin == s.pin)
  }

  /** The name of a sensor configured without one: `Sensor ` and its id in decimal. */
  function DefaultName(id: nat): (r: string)
    ensures |r| > 7 && r[..7] == "Sensor " && r[7..] == DecimalText(id)
  {
    "Sensor " + DecimalText(id)
  }

  /** The record `init` fills in for spec number `id`, before a DHT probe is attached. */
  function Instantiate(spec: SensorSpec, id: nat): (s: Sensor)
    ensures s.id == id && s.driver == spec.driver && s.probe.None?
    ensures s.lastReadTime == 0 && s.lastValue == 0.0
    ensures s.name == if spec.name.Some? then spec.name.value else DefaultName(id)
    ensures s.pin == spec.pin.GetOr(0)
    ensures spec.intervalMs.None? ==> s.interval == DEFAULT_INTERVAL
    ensures spec.intervalMs.Some? ==> s.interval == ToMillis(spec.intervalMs.value)
    ensures spec.intervalMs.Some? && 0 <= spec.intervalMs.value < WRAP ==> s.interval == spec.intervalMs.value
    ensures spec.intervalMs.Some? && -WRAP <= spec.intervalMs.value < 0 ==> s.interval == spec.intervalMs.value + WRAP
  {
    Sensor(
      id := id,
      name := spec.name.GetOr(DefaultName(id)),
      driver := spec.driver,
      pin := spec.pin.GetOr(0),
      lastReadTime := 0,
      interval := ToMillis(spec.intervalMs.GetOr(DEFAULT_INTERVAL)),
      lastValue := 0.0,
      probe := None)
  }

  /** `s` is what `init` builds for spec number `id`, with a probe exactly when it is a DHT. */
  ghost predicate Built(s: Sensor, spec: SensorSpec, id: nat)
  {
    && s.(probe := None) == Instantiate(spec, id)
    && WellFormed(s)
  }

  /** The first |ss| specs of `cfg` were built, in order, into `ss`. */
  ghost predicate BuiltPrefix(ss: seq<Sensor>, cfg: seq<SensorSpec>)
  {
    |ss| <= |cfg| && forall j :: 0 <= j < |ss| ==> Built(ss[j], cfg[j], j)
  }

  lemma BuiltPrefixExtend(ss: seq<Sensor>, s: Sensor, cfg: seq<SensorSpec>)
    requires BuiltPrefix(ss, cfg) && |ss| < |cfg|
    requires Built(s, cfg[|ss|], |ss|)
    ensures BuiltPrefix(ss + [s], cfg)
  {
  }

  /** A sensor `init` has just built carries its position as id and no reading yet. */
  lemma BuiltIsFresh(s: Sensor, spec: SensorSpec, id: nat)
    requires Built(s, spec, id)
    ensures s.id == id && s.lastValue == 0.0 && s.lastReadTime == 0
  {
    assert s.(probe := None).id == Instantiate(spec, id).id;
  }

  /** Two sensors of one generation that were given no name get different default names. */
  lemma DefaultNamesDistinct(i: nat, j: nat)
    requires i != j
    ensures DefaultName(i) != DefaultName(j)
  {
    if DefaultName(i) == DefaultName(j) {
      var prefix := "Sensor ";
      assert DefaultName(i)[|prefix|..] == DecimalText(i);
      assert DefaultName(j)[|prefix|..] == DecimalText(j);
      DecimalTextInjective(i, j);
    }
  }

  /** `readSensor`: only the cached value can change, and only for a supported driver. */
  function Read(s: Sensor, hw: Hardware): (r: Sensor)
    requires s.driver == "DHT" ==> s.probe.Some?
    ensures r == s.(lastValue := r.lastValue)
    ensures KindOf(s.driver) == Unsupported ==> r == s
    ensures s.driver == "DHT" ==>
      r.lastValue == match hw.temperature(s.probe.value.pin)
                     case NaN => s.lastValue
                     case Celsius(t) => t
    ensures s.driver == "LDR" || s.driver == "POT" ==> r.lastValue == hw.analog(s.pin) as real
    ensures s.driver == "DIGITAL" ==> r.lastValue == 0.0 || r.lastValue == 1.0
    ensures s.driver == "DIGITAL" ==> (r.lastValue == 1.0 <==> hw.digital(s.pin))
  {
    match KindOf(s.driver)
    case TemperatureProbe =>
      var t := hw.temperature(s.probe.value.pin);
      if t.NaN? then s else s.(lastValue := t.degrees)
    case AnalogLight => s.(lastValue := hw.analog(s.pin) as real)
    case AnalogPot => s.(lastValue := hw.analog(s.pin) as real)
    case DigitalInput => s.(lastValue := if hw.digital(s.pin) then 1.0 else 0.0)
    case Unsupported => s
  }

  /** The interval gate of `loop`, with unsigned 32-bit subtraction. */
  function Due(s: Sensor, now: Millis): (r: bool)
    ensures s.lastReadTime <= now ==> (r <==> now - s.lastReadTime >= s.interval)
    ensures now < s.lastReadTime ==> (r <==> now - s.lastReadTime + WRAP >= s.interval)
    ensures now == s.lastReadTime ==> (r <==> s.interval == 0)
  {
    Elapsed(now, s.lastReadTime) >= s.interval
  }

  /** One sensor's step in `loop`: a due sensor is stamped with `now` and read. */
  function Poll(s: Sensor, now: Millis, hw: Hardware): (r: Sensor)
    requires s.driver == "DHT" ==> s.probe.Some?
    ensures Due(s, now) ==> r.lastReadTime == now && r == Read(s.(lastReadTime := now), hw)
    ensures !Due(s, now) ==> r == s
    ensures r == s.(lastReadTime := r.lastReadTime, lastValue := r.lastValue)
  {
    if Due(s, now) then Read(s.(lastReadTime := now), hw) else s
  }

  /**
   * The gate measures true time across counter wrap-around: a sensor last read
   * at absolute time t0 is read at time t (less than 2^32 ms later) exactly when
   * its interval has passed.
   */
  lemma DueExactlyAfterInterval(s: Sensor, t0: nat, t: nat)
    requires s.lastReadTime == CounterAt(t0)
    requires t0 <= t < t0 + WRAP
    ensures Due(s, CounterAt(t)) <==> t - t0 >= s.interval
  {
    ElapsedIsTrueDuration(t0, t);
  }

  /** The snapshot entries: each sensor's id and cached value, in list order. */
  function Readings(ss: seq<Sensor>): (r: seq<(nat, real)>)
    ensures |r| == |ss|
    ensures forall i :: 0 <= i < |ss| ==> r[i] == (ss[i].id, ss[i].lastValue)
  {
    seq(|ss|, i requires 0 <= i < |ss| => (ss[i].id, ss[i].lastValue))
  }

  /** The driver objects owned by a list of sensors. */
  function Probes(ss: seq<Sensor>): set<DhtProbe>
  {
    if ss == [] then {}
    else Probes(ss[..|ss| - 1]) + (if ss[|ss| - 1].probe.Some? then {ss[|ss| - 1].probe.value} else {})
  }

  lemma {:induction false} ProbesMembers(ss: seq<Sensor>, p: DhtProbe)
    ensures p in Probes(ss) <==> exists j :: 0 <= j < |ss| && ss[j].probe == Some(p)
    decreases |ss|
  {
    if ss != [] {
      var front := ss[..|ss| - 1];
      ProbesMembers(front, p);
      assert forall j :: 0 <= j < |front| ==> front[j] == ss[j];
    }
  }

  /** No driver object is shared by two sensors. */
  ghost predicate Exclusive(ss: seq<Sensor>)
  {
    forall i, j :: 0 <= i < j < |ss| && ss[i].probe.Some? && ss[j].probe.Some? ==>
      ss[i].probe.value != ss[j].probe.value
  }

  /** Appending a well-formed sensor with the next id and an unowned probe keeps ownership exclusive. */
  lemma AppendKeepsOwnership(ss: seq<Sensor>, s: Sensor)
    requires forall i :: 0 <= i < |ss| ==> ss[i].id == i && WellFormed(ss[i])
    requires Exclusive(ss)
    requires s.id == |ss| && WellFormed(s)
    requires s.probe.Some? ==> s.probe.value !in Probes(ss)
    ensures forall i :: 0 <= i < |ss + [s]| ==> (ss + [s])[i].id == i && WellFormed((ss + [s])[i])
    ensures Exclusive(ss + [s])
    ensures Probes(ss + [s]) == Probes(ss) + (if s.probe.Some? then {s.probe.value} else {})
  {
    var all := ss + [s];
    assert all[..|ss|] == ss;
    forall j | 0 <= j < |ss| && ss[j].probe.Some? && s.probe.Some?
      ensures ss[j].probe.value != s.probe.value
    {
      ProbesMembers(ss, ss[j].probe.value);
    }
  }

  /**
   * One step of the teardown: the probe of sensor i, if any, is still owned, and
   * releasing it keeps the not-yet-released probes exactly those of sensors i+1.. .
   */
  lemma ReleaseStep(ss: seq<Sensor>, i: nat, owned: set<DhtProbe>)
    requires i < |ss| && Exclusive(ss)
    requires owned + Probes(ss[..i]) == Probes(ss) && owned !! Probes(ss[..i])
    ensures ss[i].probe.Some? ==> ss[i].probe.value in owned
    ensures var rest := if ss[i].probe.Some? then owned - {ss[i].probe.value} else owned;
      rest + Probes(ss[..i + 1]) == Probes(ss) && rest !! Probes(ss[..i + 1])
  {
    assert ss[..i + 1][..i] == ss[..i];
    if ss[i].probe.Some? {
      var p := ss[i].probe.value;
      ProbesMembers(ss, p);
      ProbesMembers(ss[..i], p);
    }
  }

  /** With exclusive ownership, there are exactly as many driver objects as DHT sensors. */
  function CountDht(ss: seq<Sensor>): nat
  {
    if ss == [] then 0 else CountDht(ss[..|ss| - 1]) + (if ss[|ss| - 1].driver == "DHT" then 1 else 0)
  }

  lemma {:induction false} ProbeCount(ss: seq<Sensor>)
    requires forall i :: 0 <= i < |ss| ==> WellFormed(ss[i])
    requires Exclusive(ss)
    ensures |Probes(ss)| == CountDht(ss)
    decreases |ss|
  {
    if ss != [] {
      var front, last := ss[..|ss| - 1], ss[|ss| - 1];
      ProbeCount(front);
      if last.probe.Some? {
        ProbesMembers(front, last.probe.value);
      }
    }
  }

  class SensorManager {
    var sensors: seq<Sensor>
    /** The driver objects this manager has allocated and not yet deleted. */
    ghost var owned: set<DhtProbe>

    /** Ids number the list from 0; DHT sensors, and only they, own distinct probes. */
    ghost predicate Valid()
      reads this
    {
      && (forall i :: 0 <= i < |sensors| ==> sensors[i].id == i && WellFormed(sensors[i]))
      && Exclusive(sensors)
      && owned == Probes(sensors)
    }

    constructor ()
      ensures Valid() && sensors == [] && owned == {}
    {
      sensors := [];
      owned := {};
    }

    /**
     * `init`: deletes every DHT probe of the previous generation, clears the
     * list, then builds one sensor per spec in order.
     */
    method Init(cfg: seq<SensorSpec>)
      requires Valid()
      modifies this
      ensures Valid()
      ensures |sensors| == |cfg|
      ensures forall i :: 0 <= i < |cfg| ==> Built(sensors[i], cfg[i], i)
      ensures forall p :: p in owned ==> fresh(p)
      ensures |owned| == CountDht(sensors)
    {
      ReleaseAll();
      var idCounter := 0;
      while idCounter < |cfg|
        invariant Valid()
        invariant 0 <= idCounter <= |cfg|
        invariant |sensors| == idCounter
        invariant BuiltPrefix(sensors, cfg)
        invariant forall p :: p in owned ==> fresh(p)
      {
        ghost var before := sensors;
        Add(cfg[idCounter]);
        BuiltPrefixExtend(before, sensors[idCounter], cfg);
        assert sensors == before + [sensors[idCounter]];
        idCounter := idCounter + 1;
      }
      CountOwned();
    }

    /** The manager owns exactly as many driver objects as it has DHT sensors. */
    lemma CountOwned()
      requires Valid()
      ensures |owned| == CountDht(sensors)
    {
      ProbeCount(sensors);
    }

    /** The teardown at the start of `init`: each owned probe is deleted exactly once. */
    method ReleaseAll()
      requires Valid()
      modifies this
      ensures Valid() && sensors == [] && owned == {}
    {
      var i := 0;
      while i < |sensors|
        invariant 0 <= i <= |sensors|
        invariant sensors == old(sensors)
        invariant forall j :: 0 <= j < |sensors| ==> WellFormed(sensors[j])
        invariant Exclusive(sensors)
        invariant owned + Probes(sensors[..i]) == Probes(sensors)
        invariant owned !! Probes(sensors[..i])
      {
        var s := sensors[i];
        ReleaseStep(sensors, i, owned);
        if s.driver == "DHT" && s.probe.Some? {
          owned := owned - {s.probe.value};  // still owned: this is its only release
        }
        i := i + 1;
      }
      assert sensors[..i] == sensors;
      sensors := [];
    }

    /** One pass of the build loop of `init`: the next spec becomes sensor number |sensors|. */
    method Add(spec: SensorSpec)
      requires Valid()
      modifies this
      ensures Valid()
      ensures |sensors| == |old(sensors)| + 1
      ensures sensors == old(sensors) + [sensors[|old(sensors)|]]
      ensures Built(sensors[|old(sensors)|], spec, |old(sensors)|)
      ensures forall p :: p in owned ==> p in old(owned) || fresh(p)
    {
      var s := Instantiate(spec, |sensors|);
      if s.driver == "DHT" {
        var dht := new DhtProbe(s.pin);
        s := s.(probe := Some(dht));
        owned := owned + {dht};
      }
      AppendKeepsOwnership(sensors, s);
      sensors := sensors + [s];
    }

    /** `readSensor` on the sensor at position `i`. */
    method ReadSensor(i: nat, hw: Hardware)
      requires i < |sensors| && (sensors[i].driver == "DHT" ==> sensors[i].probe.Some?)
      modifies this
      ensures sensors == old(sensors)[i := Read(old(sensors)[i], hw)]
      ensures owned == old(owned)
    {
      var s := sensors[i];
      match KindOf(s.driver)
      case TemperatureProbe =>
        var t := hw.temperature(s.probe.value.pin);
        if !t.NaN? {
          sensors := sensors[i := s.(lastValue := t.degrees)];
        }
      case AnalogLight =>
        sensors := sensors[i := s.(lastValue := hw.analog(s.pin) as real)];
      case AnalogPot =>
        sensors := sensors[i := s.(lastValue := hw.analog(s.pin) as real)];
      case DigitalInput =>
        sensors := sensors[i := s.(lastValue := if hw.digital(s.pin) then 1.0 else 0.0)];
      case Unsupported =>
    }

    /** `loop`: one polling pass over all sensors in list order, at time `now`. */
    method Loop(now: Millis, hw: Hardware)
      requires Valid()
      modifies this
      ensures Valid()
      ensures |sensors| == |old(sensors)|
      ensures forall i :: 0 <= i < |sensors| ==> sensors[i] == Poll(old(sensors)[i], now, hw)
      ensures owned == old(owned)
    {
      var i := 0;
      while i < |sensors|
        invariant 0 <= i <= |sensors| == |old(sensors)|
        invariant forall j :: 0 <= j < i ==> sensors[j] == Poll(old(sensors)[j], now, hw)
        invariant forall j :: i <= j < |sensors| ==> sensors[j] == old(sensors)[j]
        invariant owned == old(owned)
      {
        if Elapsed(now, sensors[i].lastReadTime) >= sensors[i].interval {
          sensors := sensors[i := sensors[i].(lastReadTime := now)];
          ReadSensor(i, hw);
        }
        i := i + 1;
      }
      SameDevicesKeepValid(old(sensors), sensors);
    }

    /** `getJson`: the cached values as `[{"id":I,"val":V},...]`; it reads no hardware. */
    method GetJson(fmt: real -> string) returns (json: string)
      ensures json == Snapshot.Render(Readings(sensors), fmt)
    {
      ghost var entries := Snapshot.Entries(Readings(sensors), fmt);
      json := "[";
      var i := 0;
      while i < |sensors|
        invariant 0 <= i <= |sensors|
        invariant json == "[" + Join(entries[..i])
      {
        ghost var before := json;
        if i > 0 {
          json := json + ",";
        }
        ghost var sep := json[|before|..];
        assert json == before + sep && sep == if i > 0 then "," else "";
        var head := "{\"id\":" + DecimalText(sensors[i].id) + ",";
        var tail := "\"val\":" + fmt(sensors[i].lastValue) + "}";
        json := json + head;
        json := json + tail;
        assert json == before + sep + (head + tail);
        Snapshot.EntryPieces(sensors[i].id, fmt(sensors[i].lastValue));
        assert entries[i] == head + tail;
        JsonArrayStep(json, before, sep, entries, i);
        i := i + 1;
      }
      assert entries[..i] == entries;
      json := json + "]";
    }
  }

  /** Polling changes only timestamps and cached values, so the ownership invariant survives. */
  lemma SameDevicesKeepValid(before: seq<Sensor>, after: seq<Sensor>)
    requires |before| == |after|
    requires forall i :: 0 <= i < |before| ==>
      after[i] == before[i].(lastReadTime := after[i].lastReadTime, lastValue := after[i].lastValue)
    ensures Probes(after) == Probes(before)
    ensures Exclusive(before) ==> Exclusive(after)
  {
    forall p: DhtProbe
      ensures p in Probes(after) <==> p in Probes(before)
    {
      ProbesMembers(after, p);
      ProbesMembers(before, p);
    }
  }

  /** Successive reads of one sensor, oldest first. */
  function ReadSeries(s: Sensor, hws: seq<Hardware>): (r: Sensor)
    requires s.driver == "DHT" ==> s.probe.Some?
    ensures r.probe == s.probe && r.driver == s.driver
  {
    if hws == [] then s else Read(ReadSeries(s, hws[..|hws| - 1]), hws[|hws| - 1])
  }

  /** The most recent temperature that is not NaN, or `fallback` when every one was NaN. */
  function LastGood(ts: seq<Temperature>, fallback: real): real
  {
    if ts == [] then fallback
    else match ts[|ts| - 1]
      case NaN => LastGood(ts[..|ts| - 1], fallback)
      case Celsius(t) => t
  }

  /** Stale-value policy: a DHT sensor always shows its last valid reading, never a NaN. */
  lemma {:induction false} DhtShowsLastGood(s: Sensor, hws: seq<Hardware>)
    requires s.driver == "DHT" && s.probe.Some?
    ensures ReadSeries(s, hws).lastValue ==
      LastGood(seq(|hws|, i requires 0 <= i < |hws| => hws[i].temperature(s.probe.value.pin)), s.lastValue)
    decreases |hws|
  {
    var pin := s.probe.value.pin;
    var ts := seq(|hws|, i requires 0 <= i < |hws| => hws[i].temperature(pin));
    if hws != [] {
      var front := hws[..|hws| - 1];
      DhtShowsLastGood(s, front);
      assert ts[..|ts| - 1] == seq(|front|, i requires 0 <= i < |front| => front[i].temperature(pin));
    }
  }

  /** Ids 0..n-1 in order, each with the text `v`. */
  function Numbered(n: nat, v: string): (r: seq<(nat, string)>)
    ensures |r| == n && forall i :: 0 <= i < n ==> r[i] == (i, v)
  {
    seq(n, i requires 0 <= i < n => (i as nat, v))
  }

  /**
   * Right after `init`, the snapshot reads back as ids 0..N-1 in order, each
   * with the initial value 0.0.
   */
  lemma FreshSnapshot(ss: seq<Sensor>, cfg: seq<SensorSpec>, fmt: real -> string)
    requires |ss| == |cfg|
    requires forall i :: 0 <= i < |cfg| ==> Built(ss[i], cfg[i], i)
    requires Snapshot.BraceFree(fmt)
    ensures Snapshot.Parse(Snapshot.Render(Readings(ss), fmt)) == Some(Numbered(|cfg|, fmt(0.0)))
  {
    Snapshot.ParseRender(Readings(ss), fmt);
    FreshFormatted(ss, cfg, fmt);
  }

  lemma FreshFormatted(ss: seq<Sensor>, cfg: seq<SensorSpec>, fmt: real -> string)
    requires |ss| == |cfg|
    requires forall i :: 0 <= i < |cfg| ==> Built(ss[i], cfg[i], i)
    ensures Snapshot.Formatted(Readings(ss), fmt) == Numbered(|cfg|, fmt(0.0))
  {
    var got := Snapshot.Formatted(Readings(ss), fmt);
    var want := Numbered(|cfg|, fmt(0.0));
    forall i | 0 <= i < |cfg|
      ensures got[i] == want[i]
    {
      BuiltIsFresh(ss[i], cfg[i], i);
    }
    assert got == want;
  }
}
