# ESP32 device layer: a Dafny model

This project models the device-abstraction and scheduling layer of an ESP32
firmware that builds its sensors and displays at boot from a JSON
configuration file. The firmware also exposes the sensor values over a
WebSocket and serves a small file manager.

- `Sensors.SensorManager` owns the active sensors (`SensorManager.h`).
  `Init` deletes the previous generation's DHT driver objects and builds one
  sensor per config entry. Each sensor gets a sequential id, a default name
  and a default interval; only a `"DHT"` sensor gets a driver object. `Loop`
  polls every sensor whose interval has passed on the wrapping 32-bit
  millisecond clock. `ReadSensor` dispatches on the driver tag. A NaN
  temperature keeps the last good value. `GetJson` renders the cached values
  as `[{"id":I,"val":V},...]`.
- `Displays.DisplayManager` owns the active SSD1306 surfaces
  (`DisplayManager.h`). `Init` deletes the old ones and keeps only
  `"SSD1306"` specs, with the I2C pins defaulting to 21 and 22. A surface is
  kept, showing the boot banner, only when its panel answers `begin`.
  `PrintMsg` redraws a message on every surface.
- `Firmware` is the glue in `main.cpp`, with the class `Firmware.App` holding its global state. It covers `loadConfig` and its three
  outcomes (no file, parse error, parsed), the rescue hostname and the mDNS
  name fallback, the upload path rule, the `/api/files` list body, and the
  main loop's 1000 ms broadcast cadence.
- Supporting modules: `Clock` (32-bit `millis()` arithmetic), `Text`
  (`String(n)` digits and comma-separated lists), `Snapshot` (the snapshot
  format, with a reader proved to invert it) and `Wrappers` (`Option`).

Inputs stand in for the hardware and the libraries:
- `Sensors.Hardware` gives the DHT temperature (`NaN` or a value), the ADC
  count and the digital level for each pin. One `Hardware` value serves a
  whole polling pass.
- `begin: nat -> bool` says whether the panel of the spec at each position
  answers.
- `ConfigFile` is the outcome of opening and deserialising `/config.json`.
  It is `Missing`, `Malformed`, or `Parsed` with the document's records; an
  absent optional field is `None`.
- `fmt: real -> string` stands for Arduino's `String(float)`.
- The time `now` and the WebSocket client count are parameters.

On a malformed configuration file the code calls neither `init`: the
previously active sensors and displays stay, and so do `ssid`/`pass`; only
the hostname becomes the rescue name. The model does the same. Treating a
malformed file like a missing one would be the other possible policy; the
code does not follow it.

## Model

| member | source | states |
|---|---|---|
| `Clock.ToMillis` | SensorManager.h:39 | converting an int to `unsigned long` keeps values in range and adds 2^32 to small negatives |
| `Clock.Elapsed` | SensorManager.h:59 | unsigned subtraction: the plain difference when `since <= now`, the difference plus 2^32 after a wrap |
| `Clock.ElapsedIsTrueDuration` | SensorManager.h:59 | when less than 2^32 ms really passed, the unsigned difference of two counter readings equals the true elapsed time, even across a wrap |
| `Text.DecimalText` | SensorManager.h:84 | `String(n)` is a non-empty run of digits, one digit exactly when n < 10 |
| `Text.DecimalRoundTrip` | SensorManager.h:84 | reading back the digits of `String(n)` gives n |
| `Text.DecimalTextInjective` | SensorManager.h:36 | different numbers are written differently |
| `Text.JoinCons` | SensorManager.h:83 | the items appended one at a time with a comma before all but the first read, from the front, as the first item, a comma, then the rest |
| `Text.JoinEnds` | SensorManager.h:82-86 | the comma-joined text of no items is empty; otherwise it starts with the first item and ends with the last |
| `Text.JoinStep` | SensorManager.h:82-86 | one more item extends the joined text by a comma (except before the first item) and the item |
| `Text.JsonArrayStep` | SensorManager.h:81-86 | a writer that has emitted `[` and the first i items and then emits the separator and item i has emitted `[` and the first i+1 items |
| `Text.JsonArray` | SensorManager.h:81-87 | the text is `[`, the comma-joined items, `]` |
| `Snapshot.Entries` | SensorManager.h:84-85 | one `{"id":I,"val":V}` object per reading, in order |
| `Snapshot.Entry` | SensorManager.h:84-85 | one object starts with `{"id":` and ends with `}`, and its length is that of its key texts, the id's digits and the value text together |
| `Snapshot.Render` | SensorManager.h:80-89 | the snapshot is `[`, the comma-joined objects, `]`, and is `[]` exactly when there are no sensors |
| `Snapshot.EntryPieces` | SensorManager.h:84-85 | the two appends of `getJson` together write one `{"id":I,"val":V}` object |
| `Snapshot.ReadObjectOf` | SensorManager.h:84-85 | the reader takes one object off the front of the text and returns its id, its value text and the rest |
| `Snapshot.ParseJoin` | SensorManager.h:82-86 | the comma-separated objects read back as the list of (id, value text), in order |
| `Snapshot.ParseRender` | SensorManager.h:80-89 | the published snapshot reads back as every sensor's id and formatted value in list order; `[]` when there are none (assumes no formatted value contains `}`) |
| `Sensors.KindOf` | SensorManager.h:67-77 | the driver tag selects the read: `"DHT"`, `"LDR"`, `"POT"`, `"DIGITAL"`, anything else unsupported |
| `Sensors.Instantiate` | SensorManager.h:34-42 | spec number `id` gets id `id`, its name or `"Sensor " + id`, its pin or 0, and its interval or 2000 ms. The interval is converted to 32-bit unsigned, so a value in range is kept and a negative one has 2^32 added (-1 becomes 2^32-1). Last read time 0, value 0.0, no driver object yet |
| `Sensors.DefaultName` | SensorManager.h:36 | the default name is `Sensor ` followed by the id's decimal digits |
| `Sensors.BuiltIsFresh` | SensorManager.h:34-42 | a sensor `init` has just built has its position as id, value 0.0 and last read time 0 |
| `Sensors.DefaultNamesDistinct` | SensorManager.h:36 | two unnamed sensors of one generation get different default names |
| `Sensors.SensorManager.Init` | SensorManager.h:25-55 | afterwards the list has one sensor per spec, sensor i built from spec i with id i; DHT sensors and only they own a probe on their pin; every owned probe is newly allocated |
| `Sensors.SensorManager.CountOwned` | SensorManager.h:27-47 | a manager in its invariant owns exactly as many driver objects as it has DHT sensors, so a re-`init` leaves as many live probes as the new list has DHT entries |
| `Sensors.SensorManager.ReleaseAll` | SensorManager.h:27-30 | every probe of the previous generation is deleted exactly once and the list is emptied |
| `Sensors.ReleaseStep` | SensorManager.h:27-29 | the probe of the next sensor is still owned when the teardown reaches it, and deleting it leaves owned exactly the probes of the sensors not yet visited |
| `Sensors.SensorManager.Add` | SensorManager.h:33-53 | the next spec is appended as sensor number \|sensors\|, with a new probe only for `"DHT"`; earlier sensors are unchanged |
| `Sensors.AppendKeepsOwnership` | SensorManager.h:42-52 | appending a well-formed sensor with the next id and a newly made probe keeps the ids sequential and ownership exclusive, and adds just that probe to the owned set |
| `Sensors.ProbesMembers` | SensorManager.h:27-28 | a probe is owned exactly when some sensor of the list holds it |
| `Sensors.ProbeCount` | SensorManager.h:42-47 | with exclusive ownership, the number of driver objects equals the number of DHT sensors |
| `Sensors.Read` | SensorManager.h:66-78 | a read changes only the cached value. DHT: a NaN keeps the old value, any other reading replaces it. LDR/POT: the ADC count. DIGITAL: 1.0 exactly when the pin is high, else 0.0. Other drivers: nothing changes |
| `Sensors.SensorManager.ReadSensor` | SensorManager.h:66-78 | updates the sensor at position i to `Read` of it and nothing else |
| `Sensors.DhtShowsLastGood` | SensorManager.h:67-70 | after any series of DHT reads the value is the most recent non-NaN temperature, or the original value if all were NaN |
| `Sensors.Poll` | SensorManager.h:58-62 | a sensor is read and stamped with `now` exactly when `(now - lastReadTime) mod 2^32 >= interval`; otherwise it is unchanged; identity, driver, pin, interval and probe never change |
| `Sensors.Due` | SensorManager.h:59 | without a wrap, a sensor is due when `now - lastReadTime >= interval`; after a wrap, when that difference plus 2^32 is; a sensor stamped at `now` is due only with interval 0 |
| `Sensors.DueExactlyAfterInterval` | SensorManager.h:59 | across counter wrap-around, a sensor last read at t0 is due at t exactly when t - t0 >= interval |
| `Sensors.SensorManager.Loop` | SensorManager.h:57-64 | every sensor becomes `Poll` of its old state at `now`, the list keeps its length, and ownership is unchanged |
| `Sensors.SameDevicesKeepValid` | SensorManager.h:58-62 | polling changes only timestamps and values, so the owned probes and their exclusivity are preserved |
| `Sensors.Readings` | SensorManager.h:84-85 | the snapshot takes each sensor's id and cached value, in list order |
| `Sensors.SensorManager.GetJson` | SensorManager.h:80-89 | returns exactly the snapshot rendering of the current sensors, built by the index loop |
| `Sensors.ReadSeries` | SensorManager.h:66-70 | successive reads never change a sensor's driver or probe |
| `Sensors.FreshSnapshot` | SensorManager.h:80-89 | right after `init` from N specs, the snapshot reads back as ids 0..N-1 in order, each with value 0.0 |
| `Sensors.FreshFormatted` | SensorManager.h:34-42 | right after `init`, the ids and value texts the snapshot carries are 0..N-1, each with the text of 0.0 |
| `Displays.Oled.Show` | DisplayManager.h:46-49 | the surface shows the given text |
| `Displays.SdaOf` | DisplayManager.h:23 | the SDA pin is the configured one, or 21 when absent |
| `Displays.SclOf` | DisplayManager.h:24 | the SCL pin is the configured one, or 22 when absent |
| `Displays.Accepted` | DisplayManager.h:20-36 | every position that becomes a surface is a position of the config |
| `Displays.AcceptedSound` | DisplayManager.h:22-36 | every position that becomes a surface holds an `"SSD1306"` spec whose panel answered `begin` |
| `Displays.AcceptedIncreasing` | DisplayManager.h:20-36 | the surfaces come in config order: their positions strictly increase |
| `Displays.AcceptedComplete` | DisplayManager.h:22-36 | every `"SSD1306"` spec whose panel answers becomes a surface |
| `Displays.AcceptedStep` | DisplayManager.h:20-36 | one more spec adds its position at the end exactly when it is an answering SSD1306 spec |
| `Displays.AcceptedAtMostSsd1306` | DisplayManager.h:22-36 | there are never more surfaces than SSD1306 specs |
| `Displays.AllAnswerAllAccepted` | DisplayManager.h:29-36 | when every panel answers, every SSD1306 spec yields a surface |
| `Displays.DisplayManager.Init` | DisplayManager.h:15-41 | afterwards surface k is new and comes from the k-th accepted spec, with that spec's pins (default 21/22), showing `"System Loaded..."`. `Oled.sda`/`scl` record the arguments of the `Wire.begin` in force when the panel was built |
| `Displays.DisplayManager.ReleaseAll` | DisplayManager.h:17-18 | every previously held surface is deleted exactly once and the list is emptied |
| `Displays.DisplayManager.Add` | DisplayManager.h:21-38 | an SSD1306 spec whose panel answers appends one new surface with its pins, showing the banner; any other spec leaves the list as it was; existing surfaces keep their content |
| `Displays.DisplayManager.PrintMsg` | DisplayManager.h:44-51 | every active surface shows the message; the list is untouched |
| `Firmware.LoadedSettings` | main.cpp:99-122 | no file: `""`, `""`, the rescue name. Parse error: the previous ssid and pass, and the rescue name. Parsed: the document's ssid and pass, and its hostname or the rescue name |
| `Firmware.HostnameFallback` | main.cpp:98-122 | the hostname is the document's when a parsed file has one, otherwise `"esp32-rescue"` |
| `Firmware.CredentialsAfterLoad` | main.cpp:99-117 | no file clears ssid and pass; a parse error keeps them |
| `Firmware.MdnsName` | main.cpp:166-167 | the mDNS name is never empty: the hostname, or `"esp32-rescue"` for an empty one |
| `Firmware.MdnsAfterLoad` | main.cpp:166-167 | after loading, the mDNS name is the configured non-empty hostname, otherwise the rescue name |
| `Firmware.NoFileNoWifi` | main.cpp:154 | without a configuration file no WiFi association is attempted |
| `Firmware.JoinsWifi` | main.cpp:154 | WiFi association is attempted exactly when the SSID is non-empty |
| `Firmware.UploadPath` | main.cpp:85 | the stored path always starts with `/`: the name itself if it already does, else `/` + name |
| `Firmware.UploadPathIdempotent` | main.cpp:85 | normalising twice is normalising once |
| `Firmware.UploadPathInjective` | main.cpp:85 | two names of the same kind (absolute or not) map to the same path only if they are equal |
| `Firmware.UploadOpens` | main.cpp:84-87 | the file is opened only on the first chunk, under the normalised path |
| `Firmware.FileEntries` | main.cpp:196 | one `{"name":"N","size":S}` object per file, in directory order |
| `Firmware.FileEntry` | main.cpp:196 | one file's object starts with `{"name":"`, then the name verbatim, and ends with `}` |
| `Firmware.ListFiles` | main.cpp:191-199 | the body is `[`, the entries joined by commas, `]`; the `json != "["` test adds a comma exactly before every entry but the first |
| `Firmware.BroadcastStricterThanPolling` | main.cpp:224 | after exactly 1000 ms a sensor with a 1000 ms interval is due but the broadcast is not |
| `Firmware.BroadcastDue` | main.cpp:224 | without a wrap, a broadcast is due when `now - lastWsSend > 1000`; after a wrap, when that difference plus 2^32 is; never at the instant of the last one |
| `Firmware.BroadcastDueAfterPeriod` | main.cpp:224 | across counter wrap-around, a broadcast is due exactly when more than 1000 ms really passed |
| `Firmware.App.constructor` | main.cpp:19-23 | empty settings, `lastWsSend` 0, no sensors, no displays |
| `Firmware.App.LoadConfig` | main.cpp:98-126 | no file: `ssid = pass = ""`, hostname `"esp32-rescue"`. Parse error: only the hostname becomes `"esp32-rescue"`. In both cases neither manager is touched. Parsed: the settings come from the document, then the displays and after them the sensors are initialised from its arrays, and every owned probe and surface is newly made |
| `Firmware.App.InitManagers` | main.cpp:124-125 | the displays are initialised and then the sensors; afterwards sensor i is built from sensor spec i and surface k from the k-th accepted display spec, showing the banner; every owned probe and every surface is newly made, so nothing of the previous generation survives; the settings are unchanged |
| `Firmware.App.InitDisplays` | main.cpp:124 | the displays are initialised (surface k from the k-th accepted spec, with the banner, newly made) and the settings and sensors are untouched |
| `Firmware.App.InitSensors` | main.cpp:125 | the sensors are initialised (sensor i built from spec i, every owned probe newly made) and the settings and surfaces are untouched |
| `Firmware.App.Setup` | main.cpp:147-167 | loads the configuration with the same effect on the settings and both managers as `LoadConfig`, so no file or a malformed one leaves the sensors and displays as they were; then the DHCP name is the hostname, WiFi is attempted exactly when the SSID is non-empty, and the mDNS name is `MdnsName` of the hostname |
| `Firmware.App.Tick` | main.cpp:219-228 | the sensors are polled. When more than 1000 ms passed since `lastWsSend`, it becomes `now`, even with no clients. The snapshot is sent exactly then and only to a non-zero client count |
| `Firmware.App.OnWsConnect` | main.cpp:134-136 | a newly connected client is sent the current snapshot |

## Left out

- Network I/O is not modelled: WiFi association and its wait loop, mDNS start-up, the AsyncWebServer routes and the WebSocket transport. This includes `ws.cleanupClients`, `/api/config`, `/api/delete`, `/upload`'s response and the `/api/test/adc` hook. The client count is a parameter.
- Firmware.App.OnWsConnect: `onWsEvent` (main.cpp:134-136) runs on the network task, concurrently with `loop`. The model runs it atomically between two `Tick`s, so interleavings of a connect with a polling pass are not represented.
- LittleFS is not modelled: open, read, write, close, remove and directory enumeration. Its outcomes are inputs: `ConfigFile` for `/config.json` and the list of `(name, size)` for `/api/files`. The chunk writes of `handleUpload` are not modelled; only which path it opens, and when, is.
- ArduinoJson is not modelled: deserialisation, and `saveConfig` with the restart that follows it. Parsed records are inputs. The library's conversion of an absent `driver`, `wifi_ssid` or `wifi_pass` to a string is not modelled; the records carry the resulting strings. A present but non-string `name`, or a non-integer `interval_ms`, falls back to the default in the library; the model represents both as `None`. An absent `pin` reads as 0.
- Sensors.Instantiate: `interval_ms` is an int converted to `unsigned long` modulo 2^32. A JSON value that does not fit an `int` makes `s["interval_ms"] | 2000` give 2000; such a field must be passed as `None`, like a non-integer one, because the model converts any `Some` value modulo 2^32 (`Some(3000000000)` gives 3000000000).
- The DHT, SSD1306, Wire and Adafruit_GFX driver internals are not modelled: `dht->begin()`, `pinMode(pin, INPUT)` for non-DHT sensors, `Wire.begin(sda, scl)`, and the text size, colour and cursor of the panels. A read result is a `Hardware` input and `begin` is an oracle.
- All panels share the one global `Wire` bus (DisplayManager.h:26-27), and `Adafruit_SSD1306` stores no pins. The model gives each `Oled` the pins of the `Wire.begin` call made before it was built; the re-targeting of the shared bus by a later `Wire.begin` is not represented.
- Sensors.SensorManager.Loop: one `Hardware` snapshot serves the whole polling pass, so two sensors on the same pin read the same value within a pass. Changes of a pin's level between the reads of one pass are not represented.
- `String(float)` formatting is the parameter `fmt`. Snapshot.ParseRender assumes no formatted value contains `}`.
- `lastValue` is a `real`, not a 32-bit float. ADC counts are exact in both, but float rounding of temperatures is not modelled.
- An SSD1306 object whose `begin` fails is never deleted by the source (DisplayManager.h:27-29). The model allocates it and drops it, and does not count it among the manager's owned surfaces, so this leak is not represented.
- Sensors.SensorManager.Loop: `millis()` is called twice per due sensor (SensorManager.h:59-60), and `loop` in main.cpp calls it again for the broadcast. The model uses one `now` per polling pass and per `Tick`.
- Displays.DisplayManager.PrintMsg: the order in which surfaces are redrawn is the loop's order. The contract states only the final content of every surface.
- Sensor ids are unbounded naturals; overflow of the `int` id counter is not modelled.
- Serial logging, the HTML page, `delay` and `ESP.restart` are not modelled.
