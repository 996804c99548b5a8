/**
  Home Assistant discovery documents of container/purpleair_to_mqtt.py
  (`publish_ha_discovery`) and the table that drives them.

  For every enabled metric the bridge builds a document describing one sensor
  entity (its state topic, availability topic and device), lets the metric's
  `ha_discovery_config` override or extend it, and publishes it retained on
  `<discovery prefix>/<domain>/<root>-<key>/config`. The document sent is the
  full-key one: the abbreviated copy the source also computes is never sent.
 */
module ContainerDiscovery {
  import opened Wrappers
  import opened PyDict
  import opened JsonValue
  import opened Broker
  import opened SensorTopic

  /** One entry of ENABLED_HA_DISCOVERY_KEYS; an absent "ha_discovery_config" is the empty dict. */
  datatype MetricConfig = MetricConfig(haDomain: Option<string>, haName: Option<string>, haDiscoveryConfig: Dict<Json>)

  /** The defaults used when the environment sets nothing. */
  const DefaultSettings := Settings("purpleair", "homeassistant", "purpleair")

  /** The settings keys the shipped metrics use. */
  const SettingKeys: seq<string> := ["device_class", "unit_of_measurement", "enabled_by_default"]

  /** A "sensor" metric with a name whose overrides use only SettingKeys, each once. */
  predicate SensorMetric(config: MetricConfig)
  {
    && config.haDomain == Some("sensor") && config.haName.Some?
    && Unique(config.haDiscoveryConfig)
    && forall i :: 0 <= i < |config.haDiscoveryConfig| ==> config.haDiscoveryConfig[i].0 in SettingKeys
  }

  /** The shape every shipped entry has. */
  function Sensor(name: string, unit: string, deviceClass: Option<string>, enabledByDefault: bool): (r: MetricConfig)
    ensures SensorMetric(r)
  {
    var unitField := [("unit_of_measurement", Str(unit))];
    MetricConfig(Some("sensor"), Some(name),
      match deviceClass
      case Some(c) => [("device_class", Str(c))] + unitField
      case None => unitField + (if enabledByDefault then [] else [("enabled_by_default", Str("false"))]))
  }

  /** ENABLED_HA_DISCOVERY_KEYS as shipped (the commented-out entries are not part of it). */
  const EnabledHaDiscoveryKeys: Dict<MetricConfig> := [
    ("current_dewpoint_f", Sensor("Dewpoint", "°F", Some("temperature"), true)),
    ("current_humidity", Sensor("Humidity", "%", Some("humidity"), true)),
    ("current_temp_f", Sensor("Temperature", "°F", Some("temperature"), true)),
    ("p_0_3_um", Sensor("0.3um Partical Count A", "um/dl", None, false)),
    ("p_0_3_um_b", Sensor("0.3um Partical Count B", "um/dl", None, false)),
    ("p_0_5_um", Sensor("0.5um Partical Count A", "um/dl", None, false)),
    ("p_0_5_um_b", Sensor("0.5um Partical Count B", "um/dl", None, false)),
    ("p_1_0_um", Sensor("1um Partical Count A", "um/dl", None, false)),
    ("p_1_0_um_b", Sensor("1um Partical Count B", "um/dl", None, false)),
    ("p_2_5_um", Sensor("2.5um Partical Count A", "um/dl", None, false)),
    ("p_2_5_um_b", Sensor("2.5um Partical Count B", "um/dl", None, false)),
    ("p_5_0_um", Sensor("5um Partical Count A", "um/dl", None, false)),
    ("p_5_0_um_b", Sensor("5um Partical Count B", "um/dl", None, false)),
    ("p_10_0_um", Sensor("10um Partical Count A", "um/dl", None, false)),
    ("p_10_0_um_b", Sensor("10um Partical Count B", "um/dl", None, false)),
    ("pm1_0_atm", Sensor("1.0um Mass A", "ug/m3", None, false)),
    ("pm1_0_atm_b", Sensor("1.0um Mass B", "ug/m3", None, false)),
    ("pm25_aqi", Sensor("AirQuality A", "AQI", Some("aqi"), true)),
    ("pm25_aqi_b", Sensor("AirQuality B", "AQI", Some("aqi"), true)),
    ("pm2_5_atm", Sensor("2.5um Mass A", "ug/m3", None, false)),
    ("pm2_5_atm_b", Sensor("2.5um Mass B", "ug/m3", None, false)),
    ("pm10_0_atm", Sensor("10.0um Mass A", "ug/m3", None, false)),
    ("pm10_0_atm_b", Sensor("10.0um Mass B", "ug/m3", None, false)),
    ("pressure", Sensor("Pressure", "mbar", Some("pressure"), true))
  ]

  lemma DocumentKeysDistinct()
    ensures forall i, j :: 0 <= i < j < |DocumentKeys| ==> DocumentKeys[i] != DocumentKeys[j]
  {
  }

  /** The keys of the document before overrides, in the order the source writes them. */
  const DocumentKeys: seq<string> :=
    ["~", "name", "unique_id", "state_topic", "state_class", "availability_topic",
     "payload_available", "payload_not_available", "device"]

  /** The "device" object: one Home Assistant device per sensor, identified by the sensor
      id (as id and as MAC connection), with model and software version from the reading. */
  function DeviceDocument(s: Settings, sensorId: string, model: Json, swVersion: Json): Dict<Json>
  {
    [ ("manufacturer", Str("Purple Air, Inc.")),
      ("model", model),
      ("sw_version", swVersion),
      ("name", Str("PurpleAir " + sensorId)),
      ("ids", Arr([Str(sensorId)])),
      ("connections", Arr([Arr([Str("mac"), Str(sensorId)])])),
      ("configuration_url", Str("http://" + s.hostname + "/")) ]
  }

  /** The keys of the device block, in the order the source writes them. */
  const DeviceKeys: seq<string> := ["manufacturer", "model", "sw_version", "name", "ids", "connections", "configuration_url"]

  lemma DeviceKeysDistinct()
    ensures forall i, j :: 0 <= i < j < |DeviceKeys| ==> DeviceKeys[i] != DeviceKeys[j]
  {
  }

  /** The device block has its seven fields once each, in the order the source writes them. */
  lemma DeviceDocumentKeys(s: Settings, sensorId: string, model: Json, swVersion: Json)
    ensures var r := DeviceDocument(s, sensorId, model, swVersion);
      Keys(r) == DeviceKeys && Unique(r)
  {
    var r := DeviceDocument(s, sensorId, model, swVersion);
    assert forall i :: 0 <= i < |r| ==> Keys(r)[i] == DeviceKeys[i];
    DeviceKeysDistinct();
  }

  /** The device block names the maker, the model, the firmware and the sensor. */
  lemma DeviceDocumentFields(s: Settings, sensorId: string, model: Json, swVersion: Json)
    ensures var r := DeviceDocument(s, sensorId, model, swVersion);
      && Lookup(r, "manufacturer") == Some(Str("Purple Air, Inc."))
      && Lookup(r, "model") == Some(model) && Lookup(r, "sw_version") == Some(swVersion)
      && Lookup(r, "name") == Some(Str("PurpleAir " + sensorId))
  {
    var r := DeviceDocument(s, sensorId, model, swVersion);
    DeviceDocumentKeys(s, sensorId, model, swVersion);
    LookupPair(r, "manufacturer", Str("Purple Air, Inc."));
    LookupPair(r, "model", model);
    LookupPair(r, "sw_version", swVersion);
    LookupPair(r, "name", Str("PurpleAir " + sensorId));
  }

  /** The device block identifies the sensor by its id, as id and as MAC connection, and
      links to the sensor's own web page. */
  lemma DeviceDocumentLinks(s: Settings, sensorId: string, model: Json, swVersion: Json)
    ensures var r := DeviceDocument(s, sensorId, model, swVersion);
      && Lookup(r, "ids") == Some(Arr([Str(sensorId)]))
      && Lookup(r, "connections") == Some(Arr([Arr([Str("mac"), Str(sensorId)])]))
      && Lookup(r, "configuration_url") == Some(Str("http://" + s.hostname + "/"))
  {
    var r := DeviceDocument(s, sensorId, model, swVersion);
    DeviceDocumentKeys(s, sensorId, model, swVersion);
    LookupPair(r, "ids", Arr([Str(sensorId)]));
    LookupPair(r, "connections", Arr([Arr([Str("mac"), Str(sensorId)])]));
    LookupPair(r, "configuration_url", Str("http://" + s.hostname + "/"));
  }

  /** `discovery_data` before the metric's own settings are applied. */
  function BaseDocument(s: Settings, root: string, sensorId: string, key: string, name: string,
                        model: Json, swVersion: Json): (r: Dict<Json>)
    ensures Keys(r) == DocumentKeys && Unique(r)
  {
    var base := TopicBase(s, root);
    var r := [ ("~", Str(base)),
      ("name", Str("PurpleAir " + sensorId + " " + name)),
      ("unique_id", Str(root + "-" + key)),
      ("state_topic", Str(base + "/data/" + key)),
      ("state_class", Str("measurement")),
      ("availability_topic", Str(base + "/online")),
      ("payload_available", Str("true")),
      ("payload_not_available", Str("false")),
      ("device", Obj(DeviceDocument(s, sensorId, model, swVersion))) ];
    assert forall i :: 0 <= i < |r| ==> r[i].0 == DocumentKeys[i];
    DocumentKeysDistinct();
    r
  }

  /** `for k, v in overrides.items(): doc[k] = v`. */
  function WithOverrides(doc: Dict<Json>, overrides: Dict<Json>): Dict<Json>
    decreases overrides
  {
    if overrides == [] then doc
    else WithOverrides(Set(doc, overrides[0].0, overrides[0].1), overrides[1..])
  }

  /** An override wins over the document's own value; every other key is untouched. */
  lemma {:induction false} WithOverridesLookup(doc: Dict<Json>, overrides: Dict<Json>, x: string)
    requires Unique(doc) && Unique(overrides)
    decreases overrides
    ensures Unique(WithOverrides(doc, overrides))
    ensures Lookup(WithOverrides(doc, overrides), x) ==
      if x in Keys(overrides) then Lookup(overrides, x) else Lookup(doc, x)
  {
    if overrides != [] {
      var (k, v) := overrides[0];
      var rest := overrides[1..];
      assert Unique(rest) by {
        forall i, j | 0 <= i < j < |rest| ensures rest[i].0 != rest[j].0 {
          assert rest[i] == overrides[i + 1] && rest[j] == overrides[j + 1];
        }
      }
      WithOverridesLookup(Set(doc, k, v), rest, x);
      LookupSet(doc, k, v, x);
      assert Keys(overrides) == [k] + Keys(rest);
      if x == k {
        KeysMember(rest, x);
        assert x !in Keys(rest) by {
          forall i | 0 <= i < |rest| ensures rest[i].0 != x { assert rest[i] == overrides[i + 1]; }
        }
      }
    }
  }

  predicate Enabled(config: MetricConfig)
  {
    config.haDomain.Some? && config.haName.Some?
  }

  /** `discovery_data` once the metric's `ha_discovery_config` has been applied. */
  function DiscoveryDocument(s: Settings, root: string, sensorId: string, key: string, config: MetricConfig,
                             model: Json, swVersion: Json): Dict<Json>
    requires Enabled(config)
  {
    WithOverrides(BaseDocument(s, root, sensorId, key, config.haName.value, model, swVersion), config.haDiscoveryConfig)
  }

  /** One pass of the loop body; `None` where `sensor_data["hardwarediscovered"]`
      or `sensor_data["version"]` raises KeyError. */
  function DiscoveryStep(s: Settings, root: string, sensorId: string, data: Dict<Json>,
                         key: string, config: MetricConfig): (r: Option<Step>)
    ensures r == Some(Skipped) <==> config.haDomain.None? || config.haName.None?
    ensures r.None? <==>
      && config.haDomain.Some? && config.haName.Some?
      && (Lookup(data, "hardwarediscovered").None? || Lookup(data, "version").None?)
    ensures r.Some? && r.value.Built? ==>
      var m := r.value.msg;
      && m.topic == DiscoveryTopic(s, config.haDomain.value, root, key)
      && m.retain
      && m.payload == Document(Obj(DiscoveryDocument(s, root, sensorId, key, config,
           Lookup(data, "hardwarediscovered").value, Lookup(data, "version").value)))
  {
    if config.haDomain.None? || config.haName.None? then Some(Skipped)
    else
      match (Lookup(data, "hardwarediscovered"), Lookup(data, "version"))
      case (Some(model), Some(sw)) =>
        var doc := DiscoveryDocument(s, root, sensorId, key, config, model, sw);
        Some(Built(Message(DiscoveryTopic(s, config.haDomain.value, root, key), Document(Obj(doc)), true)))
      case _ => None
  }

  function Discovery(s: Settings, root: string, sensorId: string, data: Dict<Json>,
                     table: Dict<MetricConfig>): Outcome
  {
    if table == [] then Outcome([], false)
    else
      var prev := Discovery(s, root, sensorId, data, table[..|table| - 1]);
      if prev.failed then prev
      else
        var (key, config) := table[|table| - 1];
        match DiscoveryStep(s, root, sensorId, data, key, config)
        case None => Outcome(prev.sent, true)
        case Some(Skipped) => prev
        case Some(Built(m)) => Outcome(prev.sent + [m], false)
  }

  /** One more entry of the table: the loop body's effect on the outcome so far. */
  lemma DiscoveryExtend(s: Settings, root: string, sensorId: string, data: Dict<Json>,
                        table: Dict<MetricConfig>, i: nat)
    requires i < |table| && !Discovery(s, root, sensorId, data, table[..i]).failed
    ensures var prev := Discovery(s, root, sensorId, data, table[..i]);
      Discovery(s, root, sensorId, data, table[..i + 1]) ==
        match DiscoveryStep(s, root, sensorId, data, table[i].0, table[i].1)
        case None => Outcome(prev.sent, true)
        case Some(Skipped) => prev
        case Some(Built(m)) => Outcome(prev.sent + [m], false)
  {
    assert table[..i + 1][..i] == table[..i];
  }

  /** A KeyError ends the loop: what was sent before it is all that is sent. */
  lemma {:induction false} DiscoveryFailureStops(s: Settings, root: string, sensorId: string,
                                                data: Dict<Json>, table: Dict<MetricConfig>, n: nat)
    requires n <= |table|
    requires Discovery(s, root, sensorId, data, table[..n]).failed
    ensures Discovery(s, root, sensorId, data, table) == Discovery(s, root, sensorId, data, table[..n])
  {
    if n < |table| {
      var init := table[..|table| - 1];
      assert init[..n] == table[..n];
      DiscoveryFailureStops(s, root, sensorId, data, init, n);
    } else {
      assert table[..n] == table;
    }
  }

  /** The message a fully-enabled metric yields when the device fields are present. */
  function MessageFor(s: Settings, root: string, sensorId: string, data: Dict<Json>,
                      key: string, config: MetricConfig): Message
    requires Enabled(config)
    requires Lookup(data, "hardwarediscovered").Some? && Lookup(data, "version").Some?
  {
    DiscoveryStep(s, root, sensorId, data, key, config).value.msg
  }

  /** The KeyError does not depend on the metric, so it strikes at the first enabled
      entry: a failed run has sent nothing. */
  lemma {:induction false} FailedDiscoverySendsNothing(s: Settings, root: string, sensorId: string,
                                                      data: Dict<Json>, table: Dict<MetricConfig>)
    ensures Discovery(s, root, sensorId, data, table).failed ==>
      Discovery(s, root, sensorId, data, table).sent == []
    ensures Discovery(s, root, sensorId, data, table).sent != [] ==>
      Lookup(data, "hardwarediscovered").Some? && Lookup(data, "version").Some?
  {
    if table != [] {
      FailedDiscoverySendsNothing(s, root, sensorId, data, table[..|table| - 1]);
    }
  }

  /** With the device fields present, every enabled metric yields its message, in table order,
      and nothing else is sent. */
  lemma {:induction false} DiscoveryOfEnabled(s: Settings, root: string, sensorId: string,
                                             data: Dict<Json>, table: Dict<MetricConfig>)
    requires Lookup(data, "hardwarediscovered").Some? && Lookup(data, "version").Some?
    requires forall i :: 0 <= i < |table| ==> Enabled(table[i].1)
    ensures !Discovery(s, root, sensorId, data, table).failed
    ensures |Discovery(s, root, sensorId, data, table).sent| == |table|
    ensures forall i :: 0 <= i < |table| ==>
      Discovery(s, root, sensorId, data, table).sent[i] == MessageFor(s, root, sensorId, data, table[i].0, table[i].1)
  {
    if table != [] {
      var n := |table| - 1;
      var init := table[..n];
      var (key, config) := table[n];
      assert forall i :: 0 <= i < n ==> init[i] == table[i];
      DiscoveryOfEnabled(s, root, sensorId, data, init);
      var prev := Discovery(s, root, sensorId, data, init);
      var m := MessageFor(s, root, sensorId, data, key, config);
      assert DiscoveryStep(s, root, sensorId, data, key, config) == Some(Built(m));
      var r := Discovery(s, root, sensorId, data, table);
      assert r == Outcome(prev.sent + [m], false);
      forall i | 0 <= i < |table| ensures r.sent[i] == MessageFor(s, root, sensorId, data, table[i].0, table[i].1) {
        if i < n {
          assert r.sent[i] == prev.sent[i];
        }
      }
    }
  }

  /** A metric without a domain or a name is skipped: it changes nothing. */
  lemma DiscoverySkips(s: Settings, root: string, sensorId: string, data: Dict<Json>,
                       table: Dict<MetricConfig>, key: string, config: MetricConfig)
    requires !Enabled(config)
    ensures Discovery(s, root, sensorId, data, table + [(key, config)]) == Discovery(s, root, sensorId, data, table)
  {
    assert (table + [(key, config)])[..|table|] == table;
  }

  /** What every discovery document says, and how it ties to the bridge's other topics:
      the metric's own settings win, the structural fields hold the values the bridge
      publishes elsewhere, and there is no other key. */
  lemma DocumentFields(s: Settings, root: string, sensorId: string, key: string, config: MetricConfig,
                       model: Json, swVersion: Json)
    requires Enabled(config) && Unique(config.haDiscoveryConfig)
    ensures var doc, ov := DiscoveryDocument(s, root, sensorId, key, config, model, swVersion), config.haDiscoveryConfig;
      && Unique(doc)
      && (forall x :: x in Keys(ov) ==> Lookup(doc, x) == Lookup(ov, x))
      && (forall x :: x !in Keys(ov) && x !in DocumentKeys ==> Lookup(doc, x).None?)
      && ("~" !in Keys(ov) ==> Lookup(doc, "~") == Some(Str(TopicBase(s, root))))
      && ("name" !in Keys(ov) ==> Lookup(doc, "name") == Some(Str("PurpleAir " + sensorId + " " + config.haName.value)))
      && ("unique_id" !in Keys(ov) ==> Lookup(doc, "unique_id") == Some(Str(root + "-" + key)))
      && ("state_topic" !in Keys(ov) ==> Lookup(doc, "state_topic") == Some(Str(StateTopic(s, root, key))))
      && ("state_class" !in Keys(ov) ==> Lookup(doc, "state_class") == Some(Str("measurement")))
      && ("availability_topic" !in Keys(ov) ==> Lookup(doc, "availability_topic") == Some(Str(AvailabilityTopic(s, root))))
      && ("payload_available" !in Keys(ov) ==> Lookup(doc, "payload_available") == Some(Str("true")))
      && ("payload_not_available" !in Keys(ov) ==> Lookup(doc, "payload_not_available") == Some(Str("false")))
      && ("device" !in Keys(ov) ==> Lookup(doc, "device") == Some(Obj(DeviceDocument(s, sensorId, model, swVersion))))
  {
    var base := BaseDocument(s, root, sensorId, key, config.haName.value, model, swVersion);
    var ov := config.haDiscoveryConfig;
    var doc := WithOverrides(base, ov);
    forall x ensures Lookup(doc, x) == if x in Keys(ov) then Lookup(ov, x) else Lookup(base, x) {
      WithOverridesLookup(base, ov, x);
    }
    WithOverridesLookup(base, ov, "~");
    BaseDocumentFields(s, root, sensorId, key, config.haName.value, model, swVersion);
  }

  lemma BaseDocumentFields(s: Settings, root: string, sensorId: string, key: string, name: string,
                           model: Json, swVersion: Json)
    ensures var base := BaseDocument(s, root, sensorId, key, name, model, swVersion);
      && Lookup(base, "~") == Some(Str(TopicBase(s, root)))
      && Lookup(base, "name") == Some(Str("PurpleAir " + sensorId + " " + name))
      && Lookup(base, "unique_id") == Some(Str(root + "-" + key))
      && Lookup(base, "state_topic") == Some(Str(StateTopic(s, root, key)))
      && Lookup(base, "state_class") == Some(Str("measurement"))
      && Lookup(base, "availability_topic") == Some(Str(AvailabilityTopic(s, root)))
      && Lookup(base, "payload_available") == Some(Str("true"))
      && Lookup(base, "payload_not_available") == Some(Str("false"))
      && Lookup(base, "device") == Some(Obj(DeviceDocument(s, sensorId, model, swVersion)))
  {
    var base := BaseDocument(s, root, sensorId, key, name, model, swVersion);
    var tb := TopicBase(s, root);
    LookupPair(base, "~", Str(tb));
    LookupPair(base, "name", Str("PurpleAir " + sensorId + " " + name));
    LookupPair(base, "unique_id", Str(root + "-" + key));
    LookupPair(base, "state_topic", Str(tb + "/data/" + key));
    LookupPair(base, "state_class", Str("measurement"));
    LookupPair(base, "availability_topic", Str(tb + "/online"));
    LookupPair(base, "payload_available", Str("true"));
    LookupPair(base, "payload_not_available", Str("false"));
    LookupPair(base, "device", Obj(DeviceDocument(s, sensorId, model, swVersion)));
  }

  /** A "sensor" metric is enabled, and its overrides touch none of the document's own fields. */
  lemma SensorMetricFacts(config: MetricConfig)
    requires SensorMetric(config)
    ensures Enabled(config)
    ensures forall k :: k in Keys(config.haDiscoveryConfig) ==> k !in DocumentKeys
  {
    var ov := config.haDiscoveryConfig;
    forall k | k in Keys(ov) ensures k !in DocumentKeys {
      KeysMember(ov, k);
    }
  }

  /** Every shipped entry is a "sensor" metric with a name and well-formed overrides. */
  lemma ShippedTableShape()
    ensures |EnabledHaDiscoveryKeys| == 24
    ensures forall i :: 0 <= i < |EnabledHaDiscoveryKeys| ==> SensorMetric(EnabledHaDiscoveryKeys[i].1)
  {
  }

  /** None of the shipped metrics overrides a structural field of the document, and all
      of them are enabled. */
  lemma ShippedTable()
    ensures |EnabledHaDiscoveryKeys| == 24
    ensures forall i :: 0 <= i < |EnabledHaDiscoveryKeys| ==>
      && Enabled(EnabledHaDiscoveryKeys[i].1)
      && Unique(EnabledHaDiscoveryKeys[i].1.haDiscoveryConfig)
      && forall k :: k in Keys(EnabledHaDiscoveryKeys[i].1.haDiscoveryConfig) ==> k !in DocumentKeys
  {
    ShippedTableShape();
    forall i | 0 <= i < |EnabledHaDiscoveryKeys|
      ensures Enabled(EnabledHaDiscoveryKeys[i].1)
      ensures forall k :: k in Keys(EnabledHaDiscoveryKeys[i].1.haDiscoveryConfig) ==> k !in DocumentKeys
    {
      SensorMetricFacts(EnabledHaDiscoveryKeys[i].1);
    }
  }

  /** With the device fields present in the reading, the shipped table publishes all 24
      documents, each retained, without a KeyError. */
  lemma ShippedDiscovery(s: Settings, root: string, sensorId: string, data: Dict<Json>)
    requires Lookup(data, "hardwarediscovered").Some? && Lookup(data, "version").Some?
    ensures var r := Discovery(s, root, sensorId, data, EnabledHaDiscoveryKeys);
      && !r.failed
      && |r.sent| == 24
      && forall i :: 0 <= i < |r.sent| ==> r.sent[i].retain
  {
    var table := EnabledHaDiscoveryKeys;
    ShippedTable();
    DiscoveryOfEnabled(s, root, sensorId, data, table);
    var r := Discovery(s, root, sensorId, data, table);
    forall i | 0 <= i < |r.sent| ensures r.sent[i].retain {
      assert r.sent[i] == MessageFor(s, root, sensorId, data, table[i].0, table[i].1);
    }
  }
}
