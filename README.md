# purpleair-to-mqtt in Dafny

A model of the two variants of the purpleair-to-mqtt bridge. The bridge reads a PurpleAir
sensor's JSON reading over HTTP and republishes it on an MQTT broker. It also announces
each metric to Home Assistant through MQTT discovery documents. The two variants are:

- `container/purpleair_to_mqtt.py`. It has a sensor cache with a configurable TTL that
  strips dots from reading keys. Discovery documents use full Home Assistant field
  names plus per-metric overrides, and are retained. A key-abbreviation translator
  built on Home Assistant's two abbreviation tables is part of this variant. The main
  loop publishes once the fetch interval has passed since the last publish.
- `purpleair-to-mqtt/purpleair_to_mqtt.py` (the legacy variant). It fetches once at
  construction and uses a fixed 60-second TTL. It derives the topic root from the
  cached reading only. Discovery documents are written in abbreviated form by hand,
  with an optional `dev_cla`, and are not retained. The main loop publishes on every
  pass.

Layout:

| file | module | what |
|---|---|---|
| wrappers.dfy | Wrappers | `Option` |
| dict.dfy | PyDict | Python dicts as insertion-ordered association lists with unique keys |
| text.dfy | Text | `str.replace(c, "")`, with `split` and `join` to describe what it leaves |
| json.dfy | JsonValue | decoded JSON values |
| broker.dfy | Broker | messages, the client calls a bridge makes as a trace of events, and the outcome types both variants share |
| topic.dfy | SensorTopic | the topic root `purpleair-<SensorId without ':'>` and the topic layout shared by both variants |
| abbreviation.dfy | Abbreviation | table inversion and `abbreviate_ha_mqtt_keys` |
| container_sensor.dfy | ContainerSensor | key sanitisation and the container `PurpleAirSensor` class |
| container_discovery.dfy | ContainerDiscovery | the shipped metric table and the discovery documents and loop |
| container_bridge.dfy | ContainerBridge | `run`, `on_connect` and the publish functions, as a `Bridge` class |
| legacy_sensor.dfy | LegacySensor | the legacy `PurpleAirSensor` class |
| legacy_discovery.dfy | LegacyDiscovery | the legacy metric table and the discovery documents and loop |
| legacy_bridge.dfy | LegacyBridge | the legacy `run`, `on_connect` and publish functions |

Modelling conventions:

- The HTTP outcome of a fetch is a parameter `response: Option<Dict<Json>>`. `None`
  stands for a response that is not ok, and in the legacy constructor also for a
  request that raises (the constructor swallows that).
- The clock is an integer parameter `now`, read once per call.
- The MQTT client is a `trace` of the calls made on it (`WillSet`, `Connect`,
  `LoopStart`, `Connected(rc)` for the callback firing, `Publish`).
- A missing key is modelled the way the code handles it. A `KeyError` in the main thread
  (no "SensorId" in the reading when the topic root is needed) stops the bridge, shown as
  `stage == Crashed`. For a `KeyError` inside the `on_connect` callback the model takes
  the view that it ends only that callback, shown as `completed == false`; what the MQTT
  library does with an exception raised in a callback is not part of this model.

Behaviour of the code worth knowing:

- The container variant computes the abbreviated discovery document but only logs it. It
  publishes the full-name document (`container/purpleair_to_mqtt.py:385-389`).
- `run` publishes "true" on the availability topic right after `loop_start`
  (lines 430-432). The model places this event before any connection callback; in the
  program the callback runs on the client's network thread and may come first.
- The abbreviation translator does not descend into lists (lines 28-31).
- In the legacy variant PURPLEAIR_FETCH_INTERVAL is read without `int(...)`
  (`purpleair-to-mqtt/purpleair_to_mqtt.py:24`). When the environment sets it, the
  `time.sleep` after the first data pass (line 298) receives a string and raises
  TypeError, which ends the bridge. The model has this as `intervalFromEnvironment`.

## Model

| member | source | states |
|---|---|---|
| PyDict.Lookup | container/purpleair_to_mqtt.py:347 | `d[k]` exists exactly when `k` is a key, and the value found is the one paired with `k` |
| PyDict.Set | container/purpleair_to_mqtt.py:315 | `d[k] = v` keeps keys unique, replaces the pair for `k` in place, or appends it when `k` is new |
| PyDict.Remove | container/purpleair_to_mqtt.py:315 | `d.pop(k)` keeps every pair except the one for `k`, and leaves a dict without `k` as it is |
| PyDict.RemoveAppend | container/purpleair_to_mqtt.py:315 | removal treats each pair on its own: it distributes over concatenation, so the kept pairs stay in order |
| PyDict.RemoveAt | container/purpleair_to_mqtt.py:315 | in a dict, `pop(k)` cuts the pair for `k` out where it stands and leaves the others in their order |
| PyDict.Filter | container/purpleair_to_mqtt.py:318 | the comprehension keeps exactly the pairs whose key is allowed, and a dict whose keys are all allowed whole |
| PyDict.FilterAll | container/purpleair_to_mqtt.py:318 | a dict whose keys are all allowed is kept whole |
| PyDict.FilterAppend | container/purpleair_to_mqtt.py:318 | the comprehension visits the pairs in order: filtering distributes over concatenation |
| PyDict.LookupSet | container/purpleair_to_mqtt.py:315 | after `d[k] = v`, `k` maps to `v` and every other key is unchanged |
| PyDict.LookupRemove | container/purpleair_to_mqtt.py:315 | after `pop(k)`, `k` is missing and every other key is unchanged |
| PyDict.LookupFilter | container/purpleair_to_mqtt.py:318 | the config holds a key's reading value exactly when the key is in CONFIG_DATA_KEYS |
| PyDict.FromPairs | container/purpleair_to_mqtt.py:29 | `dict(pairs)` is a dict: no key twice |
| PyDict.FromPairsKeysGrow | container/purpleair_to_mqtt.py:29 | a later pair never moves a key already inserted: the keys built from a prefix of the pairs are a prefix of the final keys |
| PyDict.FromPairsLast | container/purpleair_to_mqtt.py:29 | a key ends with the value of its last pair |
| PyDict.FromPairsOfUnique | container/purpleair_to_mqtt.py:28-29 | `dict(pairs)` over pairs with distinct keys is those pairs in order |
| PyDict.FromPairsMember | container/purpleair_to_mqtt.py:28-29 | `dict(pairs)` holds only given pairs and has every given key |
| PyDict.FromPairsKeys | container/purpleair_to_mqtt.py:28-29 | a key is in `dict(pairs)` exactly when some pair carries it |
| Text.RemoveAll | container/purpleair_to_mqtt.py:339 | `replace(c, "")` leaves no `c`, never lengthens, and is the identity on strings without `c` |
| Text.RemoveAllKeeps | container/purpleair_to_mqtt.py:310 | every other character survives the removal, and no new one appears |
| Text.RemoveAllAppend | container/purpleair_to_mqtt.py:310 | removal distributes over concatenation |
| Text.RemoveAllOfJoin | container/purpleair_to_mqtt.py:339 | removing ":" from colon-free parts joined by ":" gives the parts concatenated, in order |
| SensorTopic.TopicName | container/purpleair_to_mqtt.py:338-340 | a root exists exactly when the reading has a string "SensorId"; it is "purpleair-" followed by the pieces of the id between colons, in order and run together |
| SensorTopic.TopicNameOfParts | purpleair-to-mqtt/purpleair_to_mqtt.py:214-216 | an id made of any number of colon-free parts joined by ":" (a MAC address has six) gives "purpleair-" followed by the parts run together |
| SensorTopic.DataTopicIsStateTopic | container/purpleair_to_mqtt.py:364 | the topic each reading entry is published on is the state topic its discovery document names |
| SensorTopic.OwnTopicsDistinct | container/purpleair_to_mqtt.py:396-416 | under one root each reading entry has its own data topic, and no data topic is the config or the availability topic |
| SensorTopic.DiscoveryTopicsDistinct | container/purpleair_to_mqtt.py:358 | two metrics of one domain get distinct discovery topics, so their retained documents never replace each other |
| Broker.DataMessages | container/purpleair_to_mqtt.py:404-406 | one unretained publish per reading entry, in dict order, on `<base>/<key>` with that entry's value |
| Abbreviation.Invert | container/purpleair_to_mqtt.py:21-22 | the inverted table is a dict, with one abbreviation per full name |
| Abbreviation.InvertKeys | container/purpleair_to_mqtt.py:21-22 | the inverted table is defined exactly on the tables' full names |
| Abbreviation.InvertRecovers | container/purpleair_to_mqtt.py:21-22 | looking up the abbreviation chosen for a full name in the original table gives back that full name |
| Abbreviation.InvertOfInjective | container/purpleair_to_mqtt.py:21-22 | when no two abbreviations share a full name, each abbreviation is the one its full name maps to |
| Abbreviation.Rename | container/purpleair_to_mqtt.py:43 | `get(key, key)`: the table's entry for a key it has, the key itself otherwise |
| Abbreviation.Abbreviate | container/purpleair_to_mqtt.py:25-31 | scalars and lists come back unchanged; objects stay objects |
| Abbreviation.Expand | container/purpleair_to_mqtt.py:21-22 | the reverse rewrite, through the original tables, leaves non-objects unchanged |
| Abbreviation.KeyRoundTrip | container/purpleair_to_mqtt.py:43 | a full name, or a key that is not an abbreviation, is recovered after abbreviating and expanding |
| Abbreviation.RenameInjective | container/purpleair_to_mqtt.py:43 | two such keys never abbreviate to the same key, so no field is lost when `dict` is built |
| Abbreviation.AbbreviateFields | container/purpleair_to_mqtt.py:24-45 | on such a document every field of an object survives, in order, renamed in its parent's context |
| Abbreviation.AbbreviateRoundTrip | container/purpleair_to_mqtt.py:24-45 | expanding an abbreviated document through the original tables gives back the document |
| Abbreviation.AbbreviateHaMqttKeys | container/purpleair_to_mqtt.py:24-45 | a document comes back as a document and a scalar as itself; on a document with safe keys, expanding the result through the two tables gives the document back |
| Abbreviation.AbbreviatedKeys | container/purpleair_to_mqtt.py:37-43 | for any tables, the keys of an abbreviated object are the renamed keys of the original, renamed through the table its parent selects |
| ContainerSensor.StripDots | container/purpleair_to_mqtt.py:310 | the new key has no dot |
| ContainerSensor.KeyFixes | container/purpleair_to_mqtt.py:307-311 | every collected fix maps a dotted key to its dot-free form |
| ContainerSensor.LastDottedKey | container/purpleair_to_mqtt.py:313-315 | the last dotted key whose dot-free form is `x`, or none when no dotted key strips to `x` |
| ContainerSensor.LastTarget | container/purpleair_to_mqtt.py:313-315 | a fix found for `x` is one of the collected fixes |
| ContainerSensor.KeyFixesKeys | container/purpleair_to_mqtt.py:307-311 | a key gets a fix exactly when it is a reading key containing a dot |
| ContainerSensor.KeyFixesUnique | container/purpleair_to_mqtt.py:307-311 | the fixes have distinct keys whenever the reading does |
| ContainerSensor.KeyFixesLastTarget | container/purpleair_to_mqtt.py:307-315 | the last fix writing `x` comes from the last dotted key stripping to `x` |
| ContainerSensor.ValidFixesPrefix | container/purpleair_to_mqtt.py:313-315 | a prefix of the fixes is still a valid sequence of renames |
| ContainerSensor.FixKeyPresent | container/purpleair_to_mqtt.py:315 | every `pop(key)` finds its key, so the application never raises |
| ContainerSensor.ApplyFixesLookup | container/purpleair_to_mqtt.py:313-315 | after all renames the reading is a dict, and each key holds the value the renames leave for it |
| ContainerSensor.SanitiseLookup | container/purpleair_to_mqtt.py:307-317 | each key of the repaired reading holds its reference value: the value of the last dotted key stripping to it, otherwise its own original value unless it was dotted |
| ContainerSensor.SanitisedKeysHaveNoDots | container/purpleair_to_mqtt.py:307-317 | no key of the repaired reading contains a dot |
| ContainerSensor.SanitiseClean | container/purpleair_to_mqtt.py:307-317 | a reading without dotted keys is left as it is |
| ContainerSensor.SanitiseIdempotent | container/purpleair_to_mqtt.py:307-317 | repairing twice is repairing once |
| ContainerSensor.SanitiseRenames | container/purpleair_to_mqtt.py:310-315 | a dotted key's value moves to its dot-free key unless a later dotted key strips to the same name |
| ContainerSensor.LastDottedKeyIsLast | container/purpleair_to_mqtt.py:313-315 | a dotted key with no later key stripping to the same name is the last one |
| ContainerSensor.SanitiseKeepsCleanKey | container/purpleair_to_mqtt.py:307-317 | a dot-free key that no dotted key strips to keeps its value |
| ContainerSensor.CollectKeyFixes | container/purpleair_to_mqtt.py:307-311 | the loop collects exactly the fixes of the reading's keys |
| ContainerSensor.ApplyKeyFixes | container/purpleair_to_mqtt.py:313-315 | the loop applies the renames in order |
| ContainerSensor.SanitiseKeys | container/purpleair_to_mqtt.py:307-317 | both loops together give a dict whose every key holds its reference value |
| ContainerSensor.PurpleAirSensor.constructor | container/purpleair_to_mqtt.py:291-297 | starts with no config, an empty reading and timestamp 0, without fetching |
| ContainerSensor.PurpleAirSensor.FetchPurpleAirData | container/purpleair_to_mqtt.py:300-323 | on success the repaired reading, its allow-listed config and the timestamp `now`; on failure an empty reading and timestamp 0, config kept |
| ContainerSensor.PurpleAirSensor.Config | container/purpleair_to_mqtt.py:326-329 | fetches only while no config is known, then returns the config |
| ContainerSensor.PurpleAirSensor.Data | container/purpleair_to_mqtt.py:332-335 | refetches exactly when `now` is past timestamp plus TTL, otherwise serves the cache |
| ContainerSensor.PurpleAirSensor.SensorTopicName | container/purpleair_to_mqtt.py:338-340 | the root of the reading `data()` returns, which may be a fresh one |
| ContainerSensor.CacheScenario | container/purpleair_to_mqtt.py:316-334 | with a 59-second TTL: a failed fetch yields `{}`; a success at 60 is served unchanged at 119; at 120 the refetch fails, so the reading is `{}` again while the config from the success stays |
| ContainerDiscovery.Sensor | container/purpleair_to_mqtt.py:86-287 | every shipped entry is a "sensor" metric with a name and overrides drawn once each from its settings keys |
| ContainerDiscovery.DocumentKeysDistinct | container/purpleair_to_mqtt.py:360-380 | the document's nine fields are distinct |
| ContainerDiscovery.BaseDocument | container/purpleair_to_mqtt.py:360-380 | the document has exactly these fields, in source order |
| ContainerDiscovery.WithOverridesLookup | container/purpleair_to_mqtt.py:382-383 | an override wins over the document's own value, and every other field is untouched |
| ContainerDiscovery.DocumentFields | container/purpleair_to_mqtt.py:357-383 | the published document has no fields beyond the base ones and the overrides; for fields not overridden it names the topic base, the state topic `<base>/data/<key>`, the availability topic, the sentinels, the unique id and the device block |
| ContainerDiscovery.BaseDocumentFields | container/purpleair_to_mqtt.py:360-380 | each field of the base document holds the value the source writes, the "device" block included |
| ContainerDiscovery.DeviceDocumentKeys | container/purpleair_to_mqtt.py:369-379 | the device block has exactly its seven keys, once each, in the source's order |
| ContainerDiscovery.DeviceDocumentFields | container/purpleair_to_mqtt.py:370-373 | the manufacturer is "Purple Air, Inc.", model and software version come from the reading, and the name is "PurpleAir <id>" |
| ContainerDiscovery.DeviceDocumentLinks | container/purpleair_to_mqtt.py:374-378 | the sensor id is the device's one id and its one MAC connection, and the configuration URL is the sensor's own web page |
| ContainerDiscovery.DiscoveryStep | container/purpleair_to_mqtt.py:350-389 | a metric without domain or name is skipped; otherwise a missing "hardwarediscovered" or "version" raises; otherwise a retained document on `<prefix>/<domain>/<root>-<key>/config` |
| ContainerDiscovery.DiscoveryFailureStops | container/purpleair_to_mqtt.py:349-389 | after a KeyError nothing more is sent |
| ContainerDiscovery.FailedDiscoverySendsNothing | container/purpleair_to_mqtt.py:371-372 | the KeyError strikes at the first enabled metric, so a failed run has sent nothing, and anything sent means both device fields were present |
| ContainerDiscovery.DiscoveryOfEnabled | container/purpleair_to_mqtt.py:349-389 | with both device fields present, every enabled metric yields its document, in table order, and the run does not fail |
| ContainerDiscovery.DiscoverySkips | container/purpleair_to_mqtt.py:350-355 | a metric without a domain or a name changes nothing |
| ContainerDiscovery.SensorMetricFacts | container/purpleair_to_mqtt.py:350-383 | a "sensor" metric with a name is enabled, and its overrides touch none of the document's own fields |
| ContainerDiscovery.ShippedTable | container/purpleair_to_mqtt.py:86-287 | the 24 shipped metrics are all enabled, and none overrides a structural field of the document |
| ContainerDiscovery.ShippedDiscovery | container/purpleair_to_mqtt.py:344-389 | with both device fields present, the shipped table publishes 24 retained documents without a KeyError |
| ContainerBridge.SpacedPairwise | container/purpleair_to_mqtt.py:440-445 | any two publishes lie more than the interval apart, not only neighbouring ones |
| ContainerBridge.Bridge.constructor | container/purpleair_to_mqtt.py:448-455 | the sensor's TTL is the fetch interval minus one, and nothing has been fetched or sent |
| ContainerBridge.Bridge.Start | container/purpleair_to_mqtt.py:411-432 | the root is taken from a reading that may be fetched here; without one the bridge stops; otherwise the will "false", connect, loop start and "true" follow on the availability topic, retained |
| ContainerBridge.Bridge.Announce | container/purpleair_to_mqtt.py:425-432 | the will "false", connect, loop start and "true" on the availability topic of the given root, and the bridge running |
| ContainerBridge.Bridge.PublishPurpleAirConfig | container/purpleair_to_mqtt.py:396-398 | the config snapshot on `<base>/config`, unretained, or nothing when the reading has no "SensorId" |
| ContainerBridge.Bridge.PublishDiscoveryEntry | container/purpleair_to_mqtt.py:350-389 | one loop pass publishes the metric's document exactly when one is built, and nothing otherwise |
| ContainerBridge.Bridge.PublishDiscoveryLoop | container/purpleair_to_mqtt.py:349-389 | the loop publishes exactly the outcome of the discovery fold, and stops at the first KeyError |
| ContainerBridge.Bridge.PublishHaDiscovery | container/purpleair_to_mqtt.py:344-393 | the documents of the reading `data()` returns after the root was taken, in table order; completes unless a KeyError struck |
| ContainerBridge.Bridge.OnConnect | container/purpleair_to_mqtt.py:48-54 | on rc 0 the config and then the discovery documents; on any other rc nothing beyond the callback itself |
| ContainerBridge.Bridge.PublishDataLoop | container/purpleair_to_mqtt.py:404-408 | one publish per reading entry in dict order |
| ContainerBridge.Bridge.PublishPurpleAirData | container/purpleair_to_mqtt.py:401-408 | the reading published is at most one TTL old, every entry on `<base>/data/<key>` |
| ContainerBridge.Bridge.Tick | container/purpleair_to_mqtt.py:440-445 | publishes exactly when more than the interval has passed since the last publish, records the publish time, and stops the bridge when the reading has no "SensorId" |
| ContainerBridge.Bridge.RunLoop | container/purpleair_to_mqtt.py:440-445 | the trace and the publish times only grow, while every publish stays spaced by the interval |
| LegacySensor.PurpleAirSensor.constructor | purpleair-to-mqtt/purpleair_to_mqtt.py:177-187 | fetches once; a failed or raising request leaves no config, an empty reading and timestamp 0 |
| LegacySensor.PurpleAirSensor.FetchPurpleAirData | purpleair-to-mqtt/purpleair_to_mqtt.py:190-199 | on success the reading as received, its allow-listed config and the timestamp `now`; on failure an empty reading and timestamp 0, config kept |
| LegacySensor.PurpleAirSensor.Config | purpleair-to-mqtt/purpleair_to_mqtt.py:202-205 | fetches only while no config is known; otherwise changes nothing |
| LegacySensor.PurpleAirSensor.Data | purpleair-to-mqtt/purpleair_to_mqtt.py:208-211 | refetches exactly when `now` is more than 60 past the timestamp |
| LegacySensor.PurpleAirSensor.SensorTopicName | purpleair-to-mqtt/purpleair_to_mqtt.py:214-216 | the root of the cached reading, never fetching |
| LegacySensor.FailedFirstFetch | purpleair-to-mqtt/purpleair_to_mqtt.py:177-216 | when the constructor's fetch fails there is no topic root, no config and a zero timestamp |
| LegacyDiscovery.DocumentKeysDistinct | purpleair-to-mqtt/purpleair_to_mqtt.py:232-252 | the ten base fields are distinct, and "dev_cla" is none of them |
| LegacyDiscovery.BaseDocument | purpleair-to-mqtt/purpleair_to_mqtt.py:228-252 | the document has exactly the ten abbreviated fields, in source order, once each |
| LegacyDiscovery.DeviceClassField | purpleair-to-mqtt/purpleair_to_mqtt.py:254-255 | "dev_cla" is present exactly when the metric has a device class, holding it, and every other field is unchanged |
| LegacyDiscovery.DocumentFields | purpleair-to-mqtt/purpleair_to_mqtt.py:228-255 | the published document holds the topic base, state and availability topics, unit, unique id, sentinels and device class as the source writes them |
| LegacyDiscovery.BaseDocumentFields | purpleair-to-mqtt/purpleair_to_mqtt.py:232-252 | each base field holds its value, the "dev" block included, and no other field exists |
| LegacyDiscovery.DeviceDocumentKeys | purpleair-to-mqtt/purpleair_to_mqtt.py:241-251 | the "dev" block has exactly its seven abbreviated keys, once each, in the source's order |
| LegacyDiscovery.DeviceDocumentFields | purpleair-to-mqtt/purpleair_to_mqtt.py:242-245 | the manufacturer is "Purple Air, Inc.", the model is fixed as "PurpleAir PA-II-SD", the software version comes from the reading, and the name is "PurpleAir <id>" |
| LegacyDiscovery.DeviceDocumentLinks | purpleair-to-mqtt/purpleair_to_mqtt.py:246-250 | the sensor id is the device's one id and its one MAC connection, and the configuration URL is the sensor's own web page |
| LegacyDiscovery.DiscoveryStep | purpleair-to-mqtt/purpleair_to_mqtt.py:225-257 | a metric without a domain is skipped; a missing name, unit or "version" raises; otherwise an unretained document on `<prefix>/<domain>/<root>-<key>/config` |
| LegacyDiscovery.DiscoveryFailureStops | purpleair-to-mqtt/purpleair_to_mqtt.py:224-257 | after a KeyError nothing more is sent |
| LegacyDiscovery.FailureAfterPublishes | purpleair-to-mqtt/purpleair_to_mqtt.py:233-234 | a metric with a domain but no name or unit fails after the documents already sent, which stay sent |
| LegacyDiscovery.CompleteEntries | purpleair-to-mqtt/purpleair_to_mqtt.py:224-234 | the entries kept are all complete metrics |
| LegacyDiscovery.ShippedTable | purpleair-to-mqtt/purpleair_to_mqtt.py:38-173 | the 32 shipped entries are each `{}` or a complete "sensor" metric |
| LegacyDiscovery.DiscoveryOfShippedShape | purpleair-to-mqtt/purpleair_to_mqtt.py:224-257 | over `{}` and complete entries, with "version" present, one document per complete entry in order, and no failure |
| LegacyDiscovery.ShippedDiscovery | purpleair-to-mqtt/purpleair_to_mqtt.py:220-257 | with "version" present, the shipped table publishes one document per complete metric in order, and skips the `{}` entries |
| LegacyBridge.Bridge.constructor | purpleair-to-mqtt/purpleair_to_mqtt.py:301-308 | the sensor is built, and so fetched once, before `run`; the source of the interval is recorded |
| LegacyBridge.Bridge.Start | purpleair-to-mqtt/purpleair_to_mqtt.py:275-292 | the root comes from the reading taken at construction; without one the bridge stops; otherwise the will "false", connect, loop start and "true", retained |
| LegacyBridge.Bridge.PublishPurpleAirConfig | purpleair-to-mqtt/purpleair_to_mqtt.py:260-262 | the known config on `<base>/config`, unretained, leaving the sensor unchanged |
| LegacyBridge.Bridge.PublishDiscoveryEntry | purpleair-to-mqtt/purpleair_to_mqtt.py:225-257 | one loop pass publishes the metric's document exactly when one is built, and nothing otherwise |
| LegacyBridge.Bridge.PublishDiscoveryLoop | purpleair-to-mqtt/purpleair_to_mqtt.py:224-257 | the loop publishes exactly the outcome of the discovery fold |
| LegacyBridge.Bridge.PublishHaDiscovery | purpleair-to-mqtt/purpleair_to_mqtt.py:220-257 | the documents of the cached reading, which is never refetched |
| LegacyBridge.Bridge.OnConnect | purpleair-to-mqtt/purpleair_to_mqtt.py:10-15 | on rc 0 the config and then the discovery documents, the sensor unchanged; on any other rc nothing beyond the callback itself |
| LegacyBridge.Bridge.PublishDataLoop | purpleair-to-mqtt/purpleair_to_mqtt.py:268-272 | one publish per reading entry in dict order |
| LegacyBridge.Bridge.Tick | purpleair-to-mqtt/purpleair_to_mqtt.py:265-298 | the root comes from the reading held before the pass; the reading `data()` then returns is published under that root; without a root the bridge stops, and so it does after publishing when the interval came from the environment |
| LegacyBridge.Bridge.RunLoop | purpleair-to-mqtt/purpleair_to_mqtt.py:294-298 | the trace only grows, and when the interval came from the environment the bridge has stopped after the first pass |
| LegacyBridge.FailedRefetchThenCrash | purpleair-to-mqtt/purpleair_to_mqtt.py:196-199 | a failed refetch publishes nothing, and the next pass stops the bridge |

## Left out

- HTTP requests, JSON decoding, the MQTT network connection, TLS, credentials, client ids and logging are outside the model. A fetch's outcome is a parameter, and each client call is an event in the trace.
- The callback runs on the client's network thread. The model takes it as an event between passes of the main loop, not as something concurrent with them.
- `time.time()` is an integer parameter read once per call. The container loop's second clock read after publishing (`last_publish = time.time()`) is taken as the same reading.
- The time `time.sleep` waits is not modelled. The legacy loop publishes on every pass, and the container loop's one-second sleep only separates passes. The legacy `sleep`'s TypeError on a string interval is modelled.
- The `while True` loops are finite schedules of passes (`RunLoop`).
- The contents of Home Assistant's abbreviation tables come from an imported library, so they are parameters of the abbreviation functions.
- `json.dumps`, `str(config)` and the client's conversion of a reading value into a payload are not modelled. A payload is the value itself. The case where paho refuses a value type is not represented.
- A failed `publish` result is only logged by the source, so the model makes no use of it.
- In the model a successful response is always a JSON object, since JSON decoding is outside the model. So `self.__data__ is None` never holds and only the TTL test of `data()` is modelled. In the container variant that matches the code, which calls `keys()` on the body before storing it. The legacy variant stores the body first (line 194) and calls `items()` on it after (line 195). A `null` or list body there raises, which the constructor swallows (lines 184-187), and `__data__` is left None. That case, and the refetch the `is None` test (line 209) then makes, are not modelled.
- Environment settings are a `Settings` value, with the source's defaults as `DefaultSettings`. The container variant's `PURPLEAIR_FETCH_INTERVAL` is an integer, as its `int(...)` makes it. The legacy variant's interval enters only as whether the environment set it (`intervalFromEnvironment`), since its length is only slept on. The legacy `MQTT_PORT` is likewise a string when set, which affects only TLS and the connection, both outside the model.
- `LegacyDiscovery.ShippedTable`: says each shipped entry is `{}` or complete, but not how many are complete (24 of 32).
- `ContainerDiscovery.ShippedTable`: does not state that the shipped metric keys are free of dots.
- `LegacyBridge.Bridge.RunLoop`: states that the trace only grows and that a string interval stops the bridge after the first pass. What each pass publishes is in `Tick`.
- `ContainerBridge.Bridge.PublishHaDiscovery`: `sensor_topic_name()` and the `data()` after it (lines 345-346) are two TTL checks, each of which may fetch. In the model both see one HTTP outcome and one clock reading, so the second never fetches anything different from the first.
- `ContainerBridge.Bridge.PublishPurpleAirData`: the same holds for its `sensor_topic_name()` and `data()` (lines 402-404). Both fetches see one HTTP outcome and one clock reading.
- A request that raises outside the legacy constructor (connection refused, timeout) would end the bridge or the callback, like a `KeyError`. The model has no such outcome: every fetch either succeeds or is not ok.
- `on_message` does nothing in either variant and is not modelled.
