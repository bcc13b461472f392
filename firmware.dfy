/**
 * The application around the two managers: loading the configuration at boot,
 * the network names derived from it, the rules of the file-manager endpoints
 * that are not I/O, and the main loop's broadcast cadence.
 *
 * Reading and parsing /config.json is an input (`ConfigFile`); so are the
 * WebSocket client count and the hardware.
 */
module Firmware {
  import opened Wrappers
  import opened Clock
  import opened Text
  import Sensors
  import Displays
  import Snapshot

  const RESCUE_HOSTNAME: string := "esp32-rescue"
  /** The main loop broadcasts the snapshot when more than this many ms have passed. */
  const BROADCAST_PERIOD: int := 1000

  /** `SystemConfig`: the network settings. */
  datatype SystemConfig = SystemConfig(ssid: string, pass: string, hostname: string)

  /** The "system" object of the configuration as parsed; an absent or non-string hostname is None. */
  datatype SystemSection = SystemSection(wifiSsid: string, wifiPass: string, hostname: Option<string>)

  datatype ConfigDoc = ConfigDoc(
    system: SystemSection,
    displays: seq<Displays.DisplaySpec>,
    sensors: seq<Sensors.SensorSpec>)

  /** The outcome of opening and deserialising /config.json. */
  datatype ConfigFile = Missing | Malformed | Parsed(doc: ConfigDoc)

  /** The device managers, as `loadConfig` initialises them. */
  datatype Manager = DisplayMgr | SensorMgr

  /** The network settings `loadConfig` leaves, given those it found. */
  function LoadedSettings(prev: SystemConfig, file: ConfigFile): (r: SystemConfig)
    ensures file.Missing? ==> r.ssid == "" && r.pass == "" && r.hostname == RESCUE_HOSTNAME
    ensures file.Malformed? ==> r.ssid == prev.ssid && r.pass == prev.pass && r.hostname == RESCUE_HOSTNAME
    ensures file.Parsed? ==>
      && r.ssid == file.doc.system.wifiSsid && r.pass == file.doc.system.wifiPass
      && r.hostname == file.doc.system.hostname.GetOr(RESCUE_HOSTNAME)
  {
    match file
    case Missing => SystemConfig("", "", RESCUE_HOSTNAME)
    case Malformed => prev.(hostname := RESCUE_HOSTNAME)
    case Parsed(doc) =>
      SystemConfig(doc.system.wifiSsid, doc.system.wifiPass, doc.system.hostname.GetOr(RESCUE_HOSTNAME))
  }

  /** The hostname is the configured one only when a parsed file names one; otherwise the rescue name. */
  lemma HostnameFallback(prev: SystemConfig, file: ConfigFile)
    ensures LoadedSettings(prev, file).hostname ==
      if file.Parsed? && file.doc.system.hostname.Some? then file.doc.system.hostname.value
      else RESCUE_HOSTNAME
  {
  }

  /** A missing file clears the WiFi credentials; a malformed one keeps the previous ones. */
  lemma CredentialsAfterLoad(prev: SystemConfig, file: ConfigFile)
    ensures file.Missing? ==> LoadedSettings(prev, file).ssid == "" && LoadedSettings(prev, file).pass == ""
    ensures file.Malformed? ==> LoadedSettings(prev, file).ssid == prev.ssid && LoadedSettings(prev, file).pass == prev.pass
  {
  }

  /** The mDNS name: the hostname, with the rescue name standing in for an empty one. */
  function MdnsName(hostname: string): (r: string)
    ensures r != ""
    ensures hostname != "" ==> r == hostname
    ensures hostname == "" ==> r == RESCUE_HOSTNAME
  {
    if hostname == "" then RESCUE_HOSTNAME else hostname
  }

  /** After boot the device is always reachable under a non-empty mDNS name, the rescue one unless configured. */
  lemma MdnsAfterLoad(prev: SystemConfig, file: ConfigFile)
    ensures var name := MdnsName(LoadedSettings(prev, file).hostname);
      name == if file.Parsed? && file.doc.system.hostname.Some? && file.doc.system.hostname.value != ""
              then file.doc.system.hostname.value else RESCUE_HOSTNAME
  {
    HostnameFallback(prev, file);
  }

  /** WiFi association is attempted only with a non-empty SSID. */
  function JoinsWifi(cfg: SystemConfig): (r: bool)
    ensures r <==> cfg.ssid != ""
  {
    |cfg.ssid| > 0
  }

  /** Without a configuration file the device never tries to join a network. */
  lemma NoFileNoWifi(prev: SystemConfig)
    ensures !JoinsWifi(LoadedSettings(prev, Missing))
  {
  }

  predicate StartsWithSlash(s: string)
  {
    |s| > 0 && s[0] == '/'
  }

  /** The LittleFS path an upload is stored under: the file name made absolute. */
  function UploadPath(filename: string): (r: string)
    ensures StartsWithSlash(r)
    ensures StartsWithSlash(filename) ==> r == filename
    ensures !StartsWithSlash(filename) ==> r == "/" + filename
  {
    if StartsWithSlash(filename) then filename else "/" + filename
  }

  /** Normalising a path twice is the same as once. */
  lemma UploadPathIdempotent(filename: string)
    ensures UploadPath(UploadPath(filename)) == UploadPath(filename)
  {
  }

  /**
   * Two names of the same kind (both absolute or both relative) go to the same
   * file only if they are equal; `"a"` and `"/a"` both go to `/a`.
   */
  lemma UploadPathInjective(a: string, b: string)
    requires UploadPath(a) == UploadPath(b)
    requires StartsWithSlash(a) == StartsWithSlash(b)
    ensures a == b
  {
    if !StartsWithSlash(a) {
      assert a == UploadPath(a)[1..];
      assert b == UploadPath(b)[1..];
    }
  }

  /** `handleUpload`: the file is opened (under the normalised name) only on the first chunk. */
  function UploadOpens(filename: string, index: nat): (r: Option<string>)
    ensures r.Some? <==> index == 0
    ensures r.Some? ==> r.value == UploadPath(filename)
  {
    if index == 0 then Some(UploadPath(filename)) else None
  }

  /** One file of the LittleFS root as the directory walk reports it. */
  datatype FileInfo = FileInfo(name: string, size: nat)

  /** One file's object: the name appears verbatim, between the quotes after `{"name":`. */
  function FileEntry(f: FileInfo): (r: string)
    ensures |r| > 9 + |f.name| && r[0] == '{' && r[|r| - 1] == '}'
    ensures r[..9] == "{\"name\":\"" && r[9..9 + |f.name|] == f.name
  {
    "{\"name\":\"" + f.name + "\",\"size\":" + DecimalText(f.size) + "}"
  }

  function FileEntries(files: seq<FileInfo>): (r: seq<string>)
    ensures |r| == |files|
    ensures forall i :: 0 <= i < |files| ==> r[i] == FileEntry(files[i])
  {
    seq(|files|, i requires 0 <= i < |files| => FileEntry(files[i]))
  }

  /**
   * The `/api/files` body.  Its loop adds a comma whenever the text is no longer
   * just "[", which is exactly before every entry but the first.
   */
  method ListFiles(files: seq<FileInfo>) returns (json: string)
    ensures json == JsonArray(FileEntries(files))
  {
    ghost var entries := FileEntries(files);
    json := "[";
    var i := 0;
    while i < |files|
      invariant 0 <= i <= |files|
      invariant json == "[" + Join(entries[..i])
      invariant json == "[" <==> i == 0
    {
      ghost var before := json;
      if json != "[" {
        json := json + ",";
      }
      ghost var sep := json[|before|..];
      assert json == before + sep && sep == if i > 0 then "," else "";
      var entry := "{\"name\":\"" + files[i].name + "\",\"size\":" + DecimalText(files[i].size) + "}";
      assert entry == entries[i];
      json := json + entry;
      JsonArrayStep(json, before, sep, entries, i);
      i := i + 1;
    }
    assert entries[..i] == entries;
    json := json + "]";
  }

  /** The broadcast gate of the main loop: strictly more than the period since the last one. */
  function BroadcastDue(now: Millis, lastSend: Millis): (r: bool)
    ensures lastSend <= now ==> (r <==> now - lastSend > BROADCAST_PERIOD)
    ensures now < lastSend ==> (r <==> now - lastSend + WRAP > BROADCAST_PERIOD)
    ensures now == lastSend ==> !r
  {
    Elapsed(now, lastSend) > BROADCAST_PERIOD
  }

  /**
   * The broadcast gate is strict where the sensor gate is not: after exactly
   * 1000 ms a sensor with a 1000 ms interval is read but no broadcast is sent.
   */
  lemma BroadcastStricterThanPolling(s: Sensors.Sensor, now: Millis, lastSend: Millis)
    requires s.interval == BROADCAST_PERIOD
    requires Elapsed(now, s.lastReadTime) == BROADCAST_PERIOD
    requires Elapsed(now, lastSend) == BROADCAST_PERIOD
    ensures Sensors.Due(s, now) && !BroadcastDue(now, lastSend)
  {
  }

  /** Across counter wrap-around, a broadcast is due exactly when more than 1000 ms really passed. */
  lemma BroadcastDueAfterPeriod(t0: nat, t: nat)
    requires t0 <= t < t0 + WRAP
    ensures BroadcastDue(CounterAt(t), CounterAt(t0)) <==> t - t0 > BROADCAST_PERIOD
  {
    ElapsedIsTrueDuration(t0, t);
  }

  /** The firmware's global state: the settings, both managers and the loop's `lastWsSend`. */
  class App {
    var sysConfig: SystemConfig
    var lastWsSend: Millis
    const sensorMgr: Sensors.SensorManager
    const displayMgr: Displays.DisplayManager
    /** The manager initialisations so far, in order. */
    ghost var inits: seq<Manager>

    ghost predicate Valid()
      reads this, sensorMgr, displayMgr
    {
      sensorMgr.Valid() && displayMgr.Valid()
    }

    constructor ()
      ensures Valid() && fresh(sensorMgr) && fresh(displayMgr)
      ensures sysConfig == SystemConfig("", "", "") && lastWsSend == 0 && inits == []
      ensures sensorMgr.sensors == [] && displayMgr.oleds == []
    {
      sysConfig := SystemConfig("", "", "");
      lastWsSend := 0;
      sensorMgr := new Sensors.SensorManager();
      displayMgr := new Displays.DisplayManager();
      inits := [];
    }

    /**
     * `loadConfig`: a missing file resets the credentials and sets the rescue
     * hostname; a malformed one only sets the rescue hostname; in neither case
     * are the managers touched.  A parsed file sets all three settings, then
     * initialises the displays and after them the sensors.
     */
    method LoadConfig(file: ConfigFile, begin: nat -> bool)
      requires Valid()
      modifies this, sensorMgr, displayMgr
      ensures Valid()
      ensures sysConfig == LoadedSettings(old(sysConfig), file)
      ensures lastWsSend == old(lastWsSend)
      ensures !file.Parsed? ==>
        && inits == old(inits)
        && sensorMgr.sensors == old(sensorMgr.sensors)
        && displayMgr.oleds == old(displayMgr.oleds)
      ensures file.Parsed? ==> inits == old(inits) + [DisplayMgr, SensorMgr] && Applied(file.doc, begin)
      ensures file.Parsed? ==> AllFresh()
    {
      match file
      case Missing =>
        sysConfig := sysConfig.(ssid := "", pass := "", hostname := RESCUE_HOSTNAME);
      case Malformed =>
        sysConfig := sysConfig.(hostname := RESCUE_HOSTNAME);
      case Parsed(doc) =>
        sysConfig := sysConfig.(ssid := doc.system.wifiSsid, pass := doc.system.wifiPass);
        sysConfig := sysConfig.(hostname := doc.system.hostname.GetOr(RESCUE_HOSTNAME));
        InitManagers(doc, begin);
    }

    /** The managers hold what `init` builds from the arrays of `doc`. */
    ghost predicate Applied(doc: ConfigDoc, begin: nat -> bool)
      reads this, sensorMgr, displayMgr, displayMgr.oleds
    {
      && |sensorMgr.sensors| == |doc.sensors|
      && (forall i :: 0 <= i < |doc.sensors| ==> Sensors.Built(sensorMgr.sensors[i], doc.sensors[i], i))
      && ShowsBanners(doc.displays, begin)
    }

    /** Surface k comes from the k-th accepted display spec and shows the banner. */
    ghost predicate ShowsBanners(specs: seq<Displays.DisplaySpec>, begin: nat -> bool)
      reads this, displayMgr, displayMgr.oleds
    {
      && |displayMgr.oleds| == |Displays.Accepted(specs, begin)|
      && (forall k :: 0 <= k < |displayMgr.oleds| ==>
            var spec := specs[Displays.Accepted(specs, begin)[k]];
            && displayMgr.oleds[k].sda == Displays.SdaOf(spec)
            && displayMgr.oleds[k].scl == Displays.SclOf(spec)
            && displayMgr.oleds[k].content == Displays.BANNER)
    }

    /**
     * Every probe the sensor manager owns and every surface the display manager
     * holds was allocated by this call: nothing of the previous generation survives.
     */
    twostate predicate AllFresh()
      reads this, sensorMgr, displayMgr
    {
      && (forall p :: p in sensorMgr.owned ==> fresh(p))
      && (forall k :: 0 <= k < |displayMgr.oleds| ==> fresh(displayMgr.oleds[k]))
    }

    /** The parsed branch of `loadConfig`: the displays are initialised, then the sensors. */
    method InitManagers(doc: ConfigDoc, begin: nat -> bool)
      requires Valid()
      modifies this, sensorMgr, displayMgr
      ensures Valid()
      ensures sysConfig == old(sysConfig) && lastWsSend == old(lastWsSend)
      ensures inits == old(inits) + [DisplayMgr, SensorMgr]
      ensures Applied(doc, begin)
      ensures AllFresh()
    {
      InitDisplays(doc.displays, begin);
      InitSensors(doc.sensors);
    }

    /** The first manager `loadConfig` initialises: the displays. */
    method InitDisplays(specs: seq<Displays.DisplaySpec>, begin: nat -> bool)
      requires Valid()
      modifies this, displayMgr
      ensures Valid()
      ensures sysConfig == old(sysConfig) && lastWsSend == old(lastWsSend)
      ensures inits == old(inits) + [DisplayMgr]
      ensures sensorMgr.sensors == old(sensorMgr.sensors) && sensorMgr.owned == old(sensorMgr.owned)
      ensures ShowsBanners(specs, begin)
      ensures forall k :: 0 <= k < |displayMgr.oleds| ==> fresh(displayMgr.oleds[k])
    {
      displayMgr.Init(specs, begin);
      inits := inits + [DisplayMgr];
    }

    /** The second manager `loadConfig` initialises: the sensors. */
    method InitSensors(cfg: seq<Sensors.SensorSpec>)
      requires Valid()
      modifies this, sensorMgr
      ensures Valid()
      ensures sysConfig == old(sysConfig) && lastWsSend == old(lastWsSend)
      ensures inits == old(inits) + [SensorMgr]
      ensures displayMgr.oleds == old(displayMgr.oleds)
      ensures forall k :: 0 <= k < |displayMgr.oleds| ==> displayMgr.oleds[k].content == old(displayMgr.oleds[k].content)
      ensures |sensorMgr.sensors| == |cfg|
      ensures forall i :: 0 <= i < |cfg| ==> Sensors.Built(sensorMgr.sensors[i], cfg[i], i)
      ensures forall p :: p in sensorMgr.owned ==> fresh(p)
    {
      sensorMgr.Init(cfg);
      inits := inits + [SensorMgr];
    }

    /**
     * `setup`, without the network I/O: load the configuration, then report the
     * DHCP hostname, whether WiFi association is attempted and the mDNS name.
     */
    method Setup(file: ConfigFile, begin: nat -> bool) returns (dhcpName: string, joinWifi: bool, dnsName: string)
      requires Valid()
      modifies this, sensorMgr, displayMgr
      ensures Valid()
      ensures sysConfig == LoadedSettings(old(sysConfig), file)
      ensures lastWsSend == old(lastWsSend)
      ensures !file.Parsed? ==>
        && inits == old(inits)
        && sensorMgr.sensors == old(sensorMgr.sensors)
        && displayMgr.oleds == old(displayMgr.oleds)
      ensures file.Parsed? ==> inits == old(inits) + [DisplayMgr, SensorMgr] && Applied(file.doc, begin)
      ensures file.Parsed? ==> AllFresh()
      ensures dhcpName == sysConfig.hostname
      ensures joinWifi == JoinsWifi(sysConfig)
      ensures dnsName == MdnsName(sysConfig.hostname)
    {
      LoadConfig(file, begin);
      dhcpName := sysConfig.hostname;
      joinWifi := |sysConfig.ssid| > 0;
      dnsName := sysConfig.hostname;
      if dnsName == "" {
        dnsName := RESCUE_HOSTNAME;
      }
    }

    /**
     * One pass of the main `loop` at time `now` with `clients` WebSocket clients:
     * poll the sensors, then, if the broadcast is due, restart its period and
     * send the snapshot when anyone is listening.
     */
    method Tick(now: Millis, hw: Sensors.Hardware, clients: nat, fmt: real -> string) returns (sent: Option<string>)
      requires Valid()
      modifies this, sensorMgr
      ensures Valid()
      ensures |sensorMgr.sensors| == |old(sensorMgr.sensors)|
      ensures forall i :: 0 <= i < |sensorMgr.sensors| ==>
        sensorMgr.sensors[i] == Sensors.Poll(old(sensorMgr.sensors)[i], now, hw)
      ensures sysConfig == old(sysConfig) && inits == old(inits)
      ensures lastWsSend == if BroadcastDue(now, old(lastWsSend)) then now else old(lastWsSend)
      ensures sent.Some? <==> BroadcastDue(now, old(lastWsSend)) && clients > 0
      ensures sent.Some? ==> sent.value == Snapshot.Render(Sensors.Readings(sensorMgr.sensors), fmt)
    {
      sensorMgr.Loop(now, hw);
      sent := None;
      if Elapsed(now, lastWsSend) > BROADCAST_PERIOD {
        lastWsSend := now;
        if clients > 0 {
          var json := sensorMgr.GetJson(fmt);
          sent := Some(json);
        }
      }
    }

    /** A client that connects to the WebSocket is sent the current snapshot at once. */
    method OnWsConnect(fmt: real -> string) returns (msg: string)
      ensures msg == Snapshot.Render(Sensors.Readings(sensorMgr.sensors), fmt)
    {
      msg := sensorMgr.GetJson(fmt);
    }
  }
}
