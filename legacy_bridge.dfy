/**
  The MQTT side of purpleair-to-mqtt/purpleair_to_mqtt.py: `run`, `on_connect`,
  `publish_purpleair_config`, `publish_ha_discovery` and `publish_purpleair_data`.

  Unlike the container variant, the topic root always comes from the cached
  reading, so a reading lost to a failed refetch is noticed only at the next
  call that needs the root. Every data pass publishes, and no discovery document
  is retained. PURPLEAIR_FETCH_INTERVAL is read without a conversion, so when the
  environment sets it the `sleep` after the first pass is handed a string and
  raises TypeError, which ends the bridge.
 */
module LegacyBridge {
  import opened Wrappers
  import opened PyDict
  import opened JsonValue
  import opened Broker
  import opened SensorTopic
  import opened LegacySensor
  import opened LegacyDiscovery

  class Bridge {
    const settings: Settings
    const table: Dict<MetricConfig>
    const sensor: PurpleAirSensor
    /** PURPLEAIR_FETCH_INTERVAL comes from the environment, and so is a string. */
    const intervalFromEnvironment: bool
    var willTopic: string
    var trace: seq<Event>
    var stage: Stage

    ghost predicate Valid()
      reads this, sensor
    {
      sensor.Valid() && sensor.hostname == settings.hostname
    }

    /** The `__main__` block: the sensor is built, and so fetched once, before `run`. */
    constructor (settings: Settings, table: Dict<MetricConfig>, intervalFromEnvironment: bool,
                 response: Option<Dict<Json>>, now: int)
      requires response.Some? ==> Unique(response.value)
      ensures Valid() && fresh(sensor)
      ensures this.settings == settings && this.table == table
      ensures this.intervalFromEnvironment == intervalFromEnvironment
      ensures stage == Idle && trace == []
      ensures sensor.Fetched(response, None, now)
    {
      this.settings := settings;
      this.table := table;
      this.intervalFromEnvironment := intervalFromEnvironment;
      sensor := new PurpleAirSensor(settings.hostname, response, now);
      willTopic := "";
      trace := [];
      stage := Idle;
    }

    /** `run` up to its loop: the root comes from the reading taken at construction; without
        a "SensorId" there the bridge stops before touching the client. */
    method Start()
      requires Valid() && stage == Idle
      modifies this
      ensures Valid()
      ensures TopicName(sensor.data).None? ==> stage == Crashed && trace == old(trace)
      ensures TopicName(sensor.data).Some? ==>
        && stage == Running
        && willTopic == AvailabilityTopic(settings, TopicName(sensor.data).value)
        && trace == old(trace) + StartEvents(willTopic)
    {
      var root := sensor.SensorTopicName();
      if root.None? {
        stage := Crashed;
        return;
      }
      willTopic := AvailabilityTopic(settings, root.value);
      trace := trace + StartEvents(willTopic);
      stage := Running;
    }

    /** `publish_purpleair_config`: the config snapshot, not retained, on `<base>/config`.
        A reading with a "SensorId" comes from a successful fetch, so `config()` does not fetch
        here and the sensor is left as it was. */
    method PublishPurpleAirConfig(response: Option<Dict<Json>>, now: int) returns (completed: bool)
      requires Valid()
      requires response.Some? ==> Unique(response.value)
      modifies this`trace, sensor
      ensures Valid()
      ensures unchanged(sensor)
      ensures completed <==> TopicName(sensor.data).Some?
      ensures !completed ==> trace == old(trace)
      ensures completed ==>
        && sensor.config.Some?
        && trace == old(trace) + [Publish(Message(ConfigTopic(settings, TopicName(sensor.data).value),
                                                  ConfigSnapshot(sensor.config), false))]
    {
      var root := sensor.SensorTopicName();
      if root.None? {
        return false;
      }
      assert sensor.data != [] by { assert Lookup(sensor.data, "SensorId").Some?; }
      var config := sensor.Config(response, now);
      trace := trace + [Publish(Message(ConfigTopic(settings, root.value), ConfigSnapshot(config), false))];
      completed := true;
    }

    /** One pass of the loop body of `publish_ha_discovery`: the metric's document is
        published when it builds one. */
    method PublishDiscoveryEntry(root: string, sensorId: string, data: Dict<Json>, key: string, config: MetricConfig)
      returns (step: Option<Step>)
      modifies this`trace
      ensures step == DiscoveryStep(settings, root, sensorId, data, key, config)
      ensures step.Some? && step.value.Built? ==> trace == old(trace) + [Publish(step.value.msg)]
      ensures !(step.Some? && step.value.Built?) ==> trace == old(trace)
    {
      step := DiscoveryStep(settings, root, sensorId, data, key, config);
      if step.Some? && step.value.Built? {
        trace := trace + [Publish(step.value.msg)];
      }
    }

    /** The loop of `publish_ha_discovery` over the metric table. */
    method PublishDiscoveryLoop(root: string, sensorId: string, data: Dict<Json>) returns (outcome: Outcome)
      modifies this`trace
      ensures outcome == Discovery(settings, root, sensorId, data, table)
      ensures trace == old(trace) + Published(outcome.sent)
    {
      var sent: seq<Message> := [];
      var failed := false;
      var i := 0;
      while i < |table| && !failed
        invariant 0 <= i <= |table|
        invariant Discovery(settings, root, sensorId, data, table[..i]) == Outcome(sent, failed)
        invariant trace == old(trace) + Published(sent)
      {
        var (key, config) := table[i];
        DiscoveryExtend(settings, root, sensorId, data, table, i);
        var step := PublishDiscoveryEntry(root, sensorId, data, key, config);
        match step {
          case None =>
            failed := true;
          case Some(Skipped) =>
          case Some(Built(m)) =>
            assert Published(sent + [m]) == Published(sent) + [Publish(m)];
            sent := sent + [m];
        }
        i := i + 1;
      }
      if failed {
        DiscoveryFailureStops(settings, root, sensorId, data, table, i);
      } else {
        assert table[..i] == table;
      }
      outcome := Outcome(sent, failed);
    }

    /** `publish_ha_discovery`: a document per metric with a domain, built from the cached
        reading only; it never fetches. */
    method PublishHaDiscovery() returns (completed: bool)
      requires Valid()
      modifies this`trace
      ensures Valid()
      ensures TopicName(sensor.data).None? ==> !completed && trace == old(trace)
      ensures TopicName(sensor.data).Some? ==>
        var outcome := Discovery(settings, TopicName(sensor.data).value,
                                 Lookup(sensor.data, "SensorId").value.s, sensor.data, table);
        && (completed <==> !outcome.failed)
        && trace == old(trace) + Published(outcome.sent)
    {
      var root := sensor.SensorTopicName();
      if root.None? {
        return false;
      }
      var data := sensor.data;
      var sensorId := Lookup(data, "SensorId").value.s;
      var outcome := PublishDiscoveryLoop(root.value, sensorId, data);
      completed := !outcome.failed;
    }

    /** `on_connect`: on result code 0 the config and then the discovery documents are
        published; otherwise the callback only logs. The sensor is never changed. */
    method OnConnect(rc: int, response: Option<Dict<Json>>, now: int) returns (completed: bool)
      requires Valid() && stage == Running
      requires response.Some? ==> Unique(response.value)
      modifies this`trace, sensor
      ensures Valid()
      ensures unchanged(sensor)
      ensures rc != 0 ==> completed && trace == old(trace) + [Connected(rc)]
      ensures rc == 0 && TopicName(sensor.data).None? ==> !completed && trace == old(trace) + [Connected(rc)]
      ensures rc == 0 && TopicName(sensor.data).Some? ==>
        var root := TopicName(sensor.data).value;
        var outcome := Discovery(settings, root, Lookup(sensor.data, "SensorId").value.s, sensor.data, table);
        && (completed <==> !outcome.failed)
        && trace == old(trace) + [Connected(rc)]
                    + [Publish(Message(ConfigTopic(settings, root), ConfigSnapshot(sensor.config), false))]
                    + Published(outcome.sent)
    {
      trace := trace + [Connected(rc)];
      if rc != 0 {
        return true;
      }
      completed := PublishPurpleAirConfig(response, now);
      if !completed {
        return;
      }
      completed := PublishHaDiscovery();
    }

    /** The loop of `publish_purpleair_data`: every entry of the reading on its data topic. */
    method PublishDataLoop(base: string, data: Dict<Json>)
      modifies this`trace
      ensures trace == old(trace) + DataMessages(base, data)
    {
      for i := 0 to |data|
        invariant trace == old(trace) + DataMessages(base, data[..i])
      {
        var (key, value) := data[i];
        assert DataMessages(base, data[..i + 1]) ==
          DataMessages(base, data[..i]) + [Publish(Message(base + "/" + key, Reading(value), false))];
        trace := trace + [Publish(Message(base + "/" + key, Reading(value), false))];
      }
      assert data[..|data|] == data;
    }

    /** One pass of `run`'s loop, `publish_purpleair_data` and the `sleep` after it: the root
        is taken from the reading held before the call, then `data()` may refetch, and the
        reading it returns is published under that earlier root. A KeyError for the root ends
        the bridge, and so does the TypeError of a `sleep` handed the interval as a string. */
    method Tick(response: Option<Dict<Json>>, now: int)
      requires Valid() && stage == Running
      requires response.Some? ==> Unique(response.value)
      modifies this`trace, this`stage, sensor
      ensures Valid()
      ensures old(TopicName(sensor.data)).None? ==> stage == Crashed && trace == old(trace) && unchanged(sensor)
      ensures old(TopicName(sensor.data)).Some? ==>
        && stage == (if intervalFromEnvironment then Crashed else Running)
        && sensor.DataCall(response, now)
        && trace == old(trace) + DataMessages(TopicBase(settings, old(TopicName(sensor.data)).value) + "/data",
                                              sensor.data)
    {
      var root := sensor.SensorTopicName();
      if root.None? {
        stage := Crashed;
        return;
      }
      var data := sensor.Data(response, now);
      PublishDataLoop(TopicBase(settings, root.value) + "/data", data);
      if intervalFromEnvironment {
        stage := Crashed;
      }
    }

    /** `run`'s `while True` loop over a finite schedule of (HTTP outcome, clock) pairs;
        it stops early when a pass crashes. The trace only grows, and with the interval
        taken from the environment the first pass is also the last. */
    method RunLoop(schedule: seq<(Option<Dict<Json>>, int)>)
      requires Valid() && stage == Running
      requires forall k :: 0 <= k < |schedule| && schedule[k].0.Some? ==> Unique(schedule[k].0.value)
      modifies this`trace, this`stage, sensor
      ensures Valid()
      ensures old(trace) <= trace
      ensures intervalFromEnvironment && |schedule| > 0 ==> stage == Crashed
    {
      for k := 0 to |schedule|
        invariant Valid()
        invariant old(trace) <= trace
        invariant k == 0 ==> stage == Running
        invariant intervalFromEnvironment && k > 0 ==> stage == Crashed
      {
        if stage != Running {
          break;
        }
        Tick(schedule[k].0, schedule[k].1);
      }
    }
  }

  /** A refetch that fails after the TTL empties the reading: that pass publishes nothing,
      and the next pass finds no "SensorId" and ends the bridge. */
  method FailedRefetchThenCrash(b: Bridge, now: int, later: int, response: Option<Dict<Json>>)
    requires b.Valid() && b.stage == Running
    requires TopicName(b.sensor.data).Some? && now > b.sensor.dataTimestamp + CacheTtl
    requires response.Some? ==> Unique(response.value)
    modifies b, b.sensor
    ensures b.stage == Crashed
    ensures b.trace == old(b.trace)
  {
    b.Tick(None, now);
    assert b.sensor.data == [];
    assert DataMessages(TopicBase(b.settings, old(TopicName(b.sensor.data)).value) + "/data", []) == [];
    if b.stage == Running {
      b.Tick(response, later);
    }
  }
}
