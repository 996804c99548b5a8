/**
  Home Assistant discovery documents of purpleair-to-mqtt/purpleair_to_mqtt.py
  (`publish_ha_discovery`).

  The documents use Home Assistant's abbreviated keys directly, carry the unit
  of measurement in every document, add "dev_cla" only for metrics with a
  device class, and are published without the retain flag. Metrics without a
  domain are skipped; a metric with a domain but no name or unit, or a reading
  without "version", raises KeyError and ends the loop.
 */
module LegacyDiscovery {
  import opened Wrappers
  import opened PyDict
  import opened JsonValue
  import opened Broker
  import opened SensorTopic

  /** One entry of ENABLED_HA_DISCOVERY_KEYS; every setting may be absent. */
  datatype MetricConfig = MetricConfig(haDomain: Option<string>, haDeviceClass: Option<string>,
                                       haName: Option<string>, haUnitOfMeas: Option<string>)

  /** The defaults used when the environment sets nothing. */
  const DefaultSettings := Settings("purpleair", "ha-discovery", "purpleair")

  function Metric(name: string, unit: string, deviceClass: Option<string>): MetricConfig
  {
    MetricConfig(Some("sensor"), deviceClass, Some(name), Some(unit))
  }

  /** An entry written as `{}`. */
  const Unconfigured := MetricConfig(None, None, None, None)

  /** ENABLED_HA_DISCOVERY_KEYS as shipped. */
  const EnabledHaDiscoveryKeys: Dict<MetricConfig> := [
    ("current_dewpoint_f", Metric("Dewpoint", "°F", Some("temperature"))),
    ("current_humidity", Metric("Humidity", "%", Some("humidity"))),
    ("current_temp_f", Metric("Temperature", "°F", Some("temperature"))),
    ("p25aqic", Unconfigured),
    ("p25aqic_b", Unconfigured),
    ("p_0_3_um", Metric(".3um Partical Count A", "um/dl", None)),
    ("p_0_3_um_b", Metric(".3um Partical Count B", "um/dl", None)),
    ("p_0_5_um", Metric(".5um Partical Count A", "um/dl", None)),
    ("p_0_5_um_b", Metric(".5um Partical Count B", "um/dl", None)),
    ("p_1_0_um", Metric("1um Partical Count A", "um/dl", None)),
    ("p_1_0_um_b", Metric("1um Partical Count B", "um/dl", None)),
    ("p_2_5_um", Metric("2.5um Partical Count A", "um/dl", None)),
    ("p_2_5_um_b", Metric("2.5um Partical Count B", "um/dl", None)),
    ("p_5_0_um", Metric("5um Partical Count A", "um/dl", None)),
    ("p_5_0_um_b", Metric("5um Partical Count B", "um/dl", None)),
    ("p_10_0_um", Metric("10um Partical Count A", "um/dl", None)),
    ("p_10_0_um_b", Metric("10um Partical Count B", "um/dl", None)),
    ("pm1_0_atm", Metric("1.0um Mass A", "ug/m3", None)),
    ("pm1_0_atm_b", Metric("1.0um Mass B", "ug/m3", None)),
    ("pm1_0_cf_1", Unconfigured),
    ("pm1_0_cf_1_b", Unconfigured),
    ("pm2.5_aqi", Metric("AirQuality A", "AQI", Some("aqi"))),
    ("pm2.5_aqi_b", Metric("AirQuality B", "AQI", Some("aqi"))),
    ("pm2_5_atm", Metric("2.5um Mass A", "ug/m3", None)),
    ("pm2_5_atm_b", Metric("2.5um Mass B", "ug/m3", None)),
    ("pm2_5_cf_1", Unconfigured),
    ("pm2_5_cf_1_b", Unconfigured),
    ("pm10_0_atm", Metric("10.0um Mass A", "ug/m3", None)),
    ("pm10_0_atm_b", Metric("10.0um Mass B", "ug/m3", None)),
    ("pm10_0_cf_1", Unconfigured),
    ("pm10_0_cf_1_b", Unconfigured),
    ("pressure", Metric("Pressure", "mbar", Some("pressure")))
  ]

  /** The keys of the document before "dev_cla", in the order the source writes them. */
  const DocumentKeys: seq<string> :=
    ["~", "name", "uniq_id", "unit_of_meas", "stat_t", "stat_cla", "avty_t", "pl_avail", "pl_not_avail", "dev"]

  lemma DocumentKeysDistinct()
    ensures forall i, j :: 0 <= i < j < |DocumentKeys| ==> DocumentKeys[i] != DocumentKeys[j]
    ensures "dev_cla" !in DocumentKeys
  {
  }

  /** The abbreviated "dev" object: one device per sensor, identified by the sensor id (as
      id and as MAC connection), with a fixed model and the software version from the reading. */
  function DeviceDocument(s: Settings, sensorId: string, swVersion: Json): Dict<Json>
  {
    [ ("mf", Str("Purple Air, Inc.")),
      ("mdl", Str("PurpleAir PA-II-SD")),
      ("sw", swVersion),
      ("name", Str("PurpleAir " + sensorId)),
      ("ids", Arr([Str(sensorId)])),
      ("cns", Arr([Arr([Str("mac"), Str(sensorId)])])),
      ("cu", Str("http://" + s.hostname + "/")) ]
  }

  /** The keys of the device block, in the order the source writes them. */
  const DeviceKeys: seq<string> := ["mf", "mdl", "sw", "name", "ids", "cns", "cu"]

  lemma DeviceKeysDistinct()
    ensures forall i, j :: 0 <= i < j < |DeviceKeys| ==> DeviceKeys[i] != DeviceKeys[j]
  {
  }

  /** The device block has its seven fields once each, in the order the source writes them. */
  lemma DeviceDocumentKeys(s: Settings, sensorId: string, swVersion: Json)
    ensures var r := DeviceDocument(s, sensorId, swVersion);
      Keys(r) == DeviceKeys && Unique(r)
  {
    var r := DeviceDocument(s, sensorId, swVersion);
    assert forall i :: 0 <= i < |r| ==> Keys(r)[i] == DeviceKeys[i];
    DeviceKeysDistinct();
  }

  /** The device block names the maker, the model, the firmware and the sensor. */
  lemma DeviceDocumentFields(s: Settings, sensorId: string, swVersion: Json)
    ensures var r := DeviceDocument(s, sensorId, swVersion);
      && Lookup(r, "mf") == Some(Str("Purple Air, Inc."))
      && Lookup(r, "mdl") == Some(Str("PurpleAir PA-II-SD")) && Lookup(r, "sw") == Some(swVersion)
      && Lookup(r, "name") == Some(Str("PurpleAir " + sensorId))
  {
    var r := DeviceDocument(s, sensorId, swVersion);
    DeviceDocumentKeys(s, sensorId, swVersion);
    LookupPair(r, "mf", Str("Purple Air, Inc."));
    LookupPair(r, "mdl", Str("PurpleAir PA-II-SD"));
    LookupPair(r, "sw", swVersion);
    LookupPair(r, "name", Str("PurpleAir " + sensorId));
  }

  /** The device block identifies the sensor by its id, as id and as MAC connection, and
      links to the sensor's own web page. */
  lemma DeviceDocumentLinks(s: Settings, sensorId: string, swVersion: Json)
    ensures var r := DeviceDocument(s, sensorId, swVersion);
      && Lookup(r, "ids") == Some(Arr([Str(sensorId)]))
      && Lookup(r, "cns") == Some(Arr([Arr([Str("mac"), Str(sensorId)])]))
      && Lookup(r, "cu") == Some(Str("http://" + s.hostname + "/"))
  {
    var r := DeviceDocument(s, sensorId, swVersion);
    DeviceDocumentKeys(s, sensorId, swVersion);
    LookupPair(r, "ids", Arr([Str(sensorId)]));
    LookupPair(r, "cns", Arr([Arr([Str("mac"), Str(sensorId)])]));
    LookupPair(r, "cu", Str("http://" + s.hostname + "/"));
  }

  function BaseDocument(s: Settings, root: string, sensorId: string, key: string, name: string,
                        unit: string, swVersion: Json): (r: Dict<Json>)
    ensures Keys(r) == DocumentKeys && Unique(r)
  {
    var base := TopicBase(s, root);
    var r := [ ("~", Str(base)),
      ("name", Str("PurpleAir " + sensorId + " " + name)),
      ("uniq_id", Str(root + "-" + key)),
      ("unit_of_meas", Str(unit)),
      ("stat_t", Str(base + "/data/" + key)),
      ("stat_cla", Str("measurement")),
      ("avty_t", Str(base + "/online")),
      ("pl_avail", Str("true")),
      ("pl_not_avail", Str("false")),
      ("dev", Obj(DeviceDocument(s, sensorId, swVersion))) ];
    assert forall i :: 0 <= i < |r| ==> r[i].0 == DocumentKeys[i];
    DocumentKeysDistinct();
    r
  }

  /** `if "ha_device_class" in config.keys(): discovery_data["dev_cla"] = ...` */
  function WithDeviceClass(doc: Dict<Json>, deviceClass: Option<string>): Dict<Json>
  {
    match deviceClass
    case Some(c) => Set(doc, "dev_cla", Str(c))
    case None => doc
  }

  /** `discovery_data`, with "dev_cla" added when the metric has a device class. */
  function DiscoveryDocument(s: Settings, root: string, sensorId: string, key: string, name: string,
                             unit: string, deviceClass: Option<string>, swVersion: Json): Dict<Json>
  {
    WithDeviceClass(BaseDocument(s, root, sensorId, key, name, unit, swVersion), deviceClass)
  }

  /** "dev_cla" is present exactly for metrics with a device class and then holds it; every
      other field is the document's own. */
  lemma DeviceClassField(doc: Dict<Json>, deviceClass: Option<string>)
    requires Unique(doc) && "dev_cla" !in Keys(doc)
    ensures Unique(WithDeviceClass(doc, deviceClass))
    ensures Lookup(WithDeviceClass(doc, deviceClass), "dev_cla") ==
      if deviceClass.Some? then Some(Str(deviceClass.value)) else None
    ensures forall x :: x != "dev_cla" ==> Lookup(WithDeviceClass(doc, deviceClass), x) == Lookup(doc, x)
  {
    match deviceClass {
      case Some(c) =>
        forall x ensures Lookup(Set(doc, "dev_cla", Str(c)), x) == if x == "dev_cla" then Some(Str(c)) else Lookup(doc, x) {
          LookupSet(doc, "dev_cla", Str(c), x);
        }
      case None =>
    }
  }

  /** The same for the discovery document itself. */
  lemma DocumentFields(s: Settings, root: string, sensorId: string, key: string, name: string,
                       unit: string, deviceClass: Option<string>, swVersion: Json)
    ensures var doc := DiscoveryDocument(s, root, sensorId, key, name, unit, deviceClass, swVersion);
      && Unique(doc)
      && (Lookup(doc, "dev_cla").Some? <==> deviceClass.Some?)
      && (deviceClass.Some? ==> Lookup(doc, "dev_cla") == Some(Str(deviceClass.value)))
      && forall x :: x != "dev_cla" ==> Lookup(doc, x) == Lookup(BaseDocument(s, root, sensorId, key, name, unit, swVersion), x)
  {
    var base := BaseDocument(s, root, sensorId, key, name, unit, swVersion);
    DocumentKeysDistinct();
    DeviceClassField(base, deviceClass);
  }

  lemma BaseDocumentFields(s: Settings, root: string, sensorId: string, key: string, name: string,
                           unit: string, swVersion: Json)
    ensures var base := BaseDocument(s, root, sensorId, key, name, unit, swVersion);
      && Lookup(base, "~") == Some(Str(TopicBase(s, root)))
      && Lookup(base, "name") == Some(Str("PurpleAir " + sensorId + " " + name))
      && Lookup(base, "uniq_id") == Some(Str(root + "-" + key))
      && Lookup(base, "unit_of_meas") == Some(Str(unit))
      && Lookup(base, "stat_t") == Some(Str(StateTopic(s, root, key)))
      && Lookup(base, "avty_t") == Some(Str(AvailabilityTopic(s, root)))
      && Lookup(base, "pl_avail") == Some(Str("true"))
      && Lookup(base, "pl_not_avail") == Some(Str("false"))
      && Lookup(base, "dev") == Some(Obj(DeviceDocument(s, sensorId, swVersion)))
      && forall x :: x !in DocumentKeys ==> Lookup(base, x).None?
  {
    var base := BaseDocument(s, root, sensorId, key, name, unit, swVersion);
    var tb := TopicBase(s, root);
    LookupPair(base, "~", Str(tb));
    LookupPair(base, "name", Str("PurpleAir " + sensorId + " " + name));
    LookupPair(base, "uniq_id", Str(root + "-" + key));
    LookupPair(base, "unit_of_meas", Str(unit));
    LookupPair(base, "stat_t", Str(tb + "/data/" + key));
    LookupPair(base, "avty_t", Str(tb + "/online"));
    LookupPair(base, "pl_avail", Str("true"));
    LookupPair(base, "pl_not_avail", Str("false"));
    LookupPair(base, "dev", Obj(DeviceDocument(s, sensorId, swVersion)));
  }

  /** One pass of the loop body; `None` where `config['ha_name']`, `config["ha_unit_of_meas"]`
      or the reading's "version" raises KeyError. */
  function DiscoveryStep(s: Settings, root: string, sensorId: string, data: Dict<Json>,
                         key: string, config: MetricConfig): (r: Option<Step>)
    ensures r == Some(Skipped) <==> config.haDomain.None?
    ensures r.None? <==>
      && config.haDomain.Some?
      && (config.haName.None? || config.haUnitOfMeas.None? || Lookup(data, "version").None?)
    ensures r.Some? && r.value.Built? ==>
      var m := r.value.msg;
      && m.topic == DiscoveryTopic(s, config.haDomain.value, root, key)
      && !m.retain
      && m.payload == Document(Obj(DiscoveryDocument(s, root, sensorId, key, config.haName.value,
           config.haUnitOfMeas.value, config.haDeviceClass, Lookup(data, "version").value)))
  {
    if config.haDomain.None? then Some(Skipped)
    else
      match (config.haName, config.haUnitOfMeas, Lookup(data, "version"))
      case (Some(name), Some(unit), Some(sw)) =>
        var doc := DiscoveryDocument(s, root, sensorId, key, name, unit, config.haDeviceClass, sw);
        Some(Built(Message(DiscoveryTopic(s, config.haDomain.value, root, key), Document(Obj(doc)), false)))
      case _ => None
  }

  function Discovery(s: Settings, root: string, sensorId: string, data: Dict<Json>,
                     table: Dict<MetricConfig>): Outcome
  {
    if table == [] then Outcome([], false)
    else
      var prev := Discovery(s, root, sensorId, data, table[..|table| - 1]);
      if prev.failed then prev
      else
        var (key, config) := table[|table| - 1];
        match DiscoveryStep(s, root, sensorId, data, key, config)
        case None => Outcome(prev.sent, true)
        case Some(Skipped) => prev
        case Some(Built(m)) => Outcome(prev.sent + [m], false)
  }

  /** One more entry of the table: the loop body's effect on the outcome so far. */
  lemma DiscoveryExtend(s: Settings, root: string, sensorId: string, data: Dict<Json>,
                        table: Dict<MetricConfig>, i: nat)
    requires i < |table| && !Discovery(s, root, sensorId, data, table[..i]).failed
    ensures var prev := Discovery(s, root, sensorId, data, table[..i]);
      Discovery(s, root, sensorId, data, table[..i + 1]) ==
        match DiscoveryStep(s, root, sensorId, data, table[i].0, table[i].1)
        case None => Outcome(prev.sent, true)
        case Some(Skipped) => prev
        case Some(Built(m)) => Outcome(prev.sent + [m], false)
  {
    assert table[..i + 1][..i] == table[..i];
  }

  /** A KeyError ends the loop: what was sent before it is all that is sent. */
  lemma {:induction false} DiscoveryFailureStops(s: Settings, root: string, sensorId: string,
                                                data: Dict<Json>, table: Dict<MetricConfig>, n: nat)
    requires n <= |table|
    requires Discovery(s, root, sensorId, data, table[..n]).failed
    ensures Discovery(s, root, sensorId, data, table) == Discovery(s, root, sensorId, data, table[..n])
  {
    if n < |table| {
      var init := table[..|table| - 1];
      assert init[..n] == table[..n];
      DiscoveryFailureStops(s, root, sensorId, data, init, n);
    } else {
      assert table[..n] == table;
    }
  }

  /** A metric with a domain but no name or unit stops the loop there, after the documents
      of the entries before it: unlike the container variant, a failure can follow publishes. */
  lemma FailureAfterPublishes(s: Settings, root: string, sensorId: string, data: Dict<Json>,
                              table: Dict<MetricConfig>, key: string, config: MetricConfig)
    requires !Discovery(s, root, sensorId, data, table).failed
    requires config.haDomain.Some? && (config.haName.None? || config.haUnitOfMeas.None?)
    ensures Discovery(s, root, sensorId, data, table + [(key, config)]) ==
      Outcome(Discovery(s, root, sensorId, data, table).sent, true)
  {
    assert (table + [(key, config)])[..|table|] == table;
  }

  /** A metric is complete when it has a domain, a name and a unit. */
  predicate Complete(config: MetricConfig)
  {
    config.haDomain.Some? && config.haName.Some? && config.haUnitOfMeas.Some?
  }

  /** The complete entries of a table, in table order. */
  function CompleteEntries(table: Dict<MetricConfig>): (r: Dict<MetricConfig>)
    ensures forall i :: 0 <= i < |r| ==> Complete(r[i].1)
  {
    if table == [] then []
    else
      var last := table[|table| - 1];
      CompleteEntries(table[..|table| - 1]) + (if Complete(last.1) then [last] else [])
  }

  /** The document a complete metric yields when the reading has a "version". */
  function MessageFor(s: Settings, root: string, sensorId: string, data: Dict<Json>,
                      key: string, config: MetricConfig): Message
    requires Complete(config) && Lookup(data, "version").Some?
  {
    DiscoveryStep(s, root, sensorId, data, key, config).value.msg
  }

  /** Every shipped entry is either `{}` or a complete "sensor" metric. */
  lemma ShippedTable()
    ensures |EnabledHaDiscoveryKeys| == 32
    ensures forall i :: 0 <= i < |EnabledHaDiscoveryKeys| ==>
      || EnabledHaDiscoveryKeys[i].1 == Unconfigured
      || (Complete(EnabledHaDiscoveryKeys[i].1) && EnabledHaDiscoveryKeys[i].1.haDomain == Some("sensor"))
  {
  }

  /** With "version" in the reading, a table of `{}` and complete entries publishes one
      document per complete entry, in order, and does not fail. */
  lemma {:induction false} DiscoveryOfShippedShape(s: Settings, root: string, sensorId: string,
                                                  data: Dict<Json>, table: Dict<MetricConfig>)
    requires Lookup(data, "version").Some?
    requires forall i :: 0 <= i < |table| ==> table[i].1 == Unconfigured || Complete(table[i].1)
    ensures !Discovery(s, root, sensorId, data, table).failed
    ensures |Discovery(s, root, sensorId, data, table).sent| == |CompleteEntries(table)|
    ensures forall i :: 0 <= i < |CompleteEntries(table)| ==>
      Discovery(s, root, sensorId, data, table).sent[i] ==
        MessageFor(s, root, sensorId, data, CompleteEntries(table)[i].0, CompleteEntries(table)[i].1)
  {
    if table != [] {
      var n := |table| - 1;
      var init := table[..n];
      var (key, config) := table[n];
      assert forall i :: 0 <= i < n ==> init[i] == table[i];
      DiscoveryOfShippedShape(s, root, sensorId, data, init);
      var prev := Discovery(s, root, sensorId, data, init);
      var r := Discovery(s, root, sensorId, data, table);
      if Complete(config) {
        var m := MessageFor(s, root, sensorId, data, key, config);
        assert DiscoveryStep(s, root, sensorId, data, key, config) == Some(Built(m));
        assert r == Outcome(prev.sent + [m], false);
        assert CompleteEntries(table) == CompleteEntries(init) + [(key, config)];
      } else {
        assert DiscoveryStep(s, root, sensorId, data, key, config) == Some(Skipped);
        assert r == prev;
        assert CompleteEntries(table) == CompleteEntries(init);
      }
    }
  }

  /** With "version" in the reading, the shipped table publishes one document per complete
      metric, in table order, and skips the `{}` entries without a KeyError. */
  lemma ShippedDiscovery(s: Settings, root: string, sensorId: string, data: Dict<Json>)
    requires Lookup(data, "version").Some?
    ensures var r := Discovery(s, root, sensorId, data, EnabledHaDiscoveryKeys);
      var complete := CompleteEntries(EnabledHaDiscoveryKeys);
      && !r.failed
      && |r.sent| == |complete|
      && forall i :: 0 <= i < |complete| ==> r.sent[i] == MessageFor(s, root, sensorId, data, complete[i].0, complete[i].1)
  {
    ShippedTable();
    DiscoveryOfShippedShape(s, root, sensorId, data, EnabledHaDiscoveryKeys);
  }
}
