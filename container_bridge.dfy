/**
  The MQTT side of container/purpleair_to_mqtt.py: `run`, the `on_connect`
  callback, `publish_purpleair_config`, `publish_ha_discovery` and
  `publish_purpleair_data`, over one PurpleAirSensor.

  The client is a trace of the calls made on it. Each operation takes the HTTP
  outcome any fetch it triggers would see and the clock reading `now`. A
  KeyError in the main thread (the reading has no "SensorId") ends the bridge:
  the stage becomes Crashed. One in the callback ends only that callback.
 */
module ContainerBridge {
  import opened Wrappers
  import opened PyDict
  import opened JsonValue
  import opened Broker
  import opened SensorTopic
  import opened ContainerSensor
  import opened ContainerDiscovery

  /** Consecutive data publishes lie more than `interval` apart, the first one after time `interval`. */
  ghost predicate Spaced(times: seq<int>, interval: int)
  {
    && (|times| > 0 ==> times[0] > interval)
    && forall i :: 0 < i < |times| ==> times[i] > times[i - 1] + interval
  }

  /** With a non-negative interval the spacing holds between any two publishes, not just neighbours. */
  lemma {:induction false} SpacedPairwise(times: seq<int>, interval: int, i: nat, j: nat)
    requires Spaced(times, interval) && interval >= 0
    requires i < j < |times|
    ensures times[j] > times[i] + interval
  {
    if j > i + 1 {
      SpacedPairwise(times, interval, i, j - 1);
    }
  }

  class Bridge {
    const settings: Settings
    const interval: int
    const table: Dict<MetricConfig>
    const sensor: PurpleAirSensor
    var willTopic: string
    var trace: seq<Event>
    var lastPublish: int
    var stage: Stage
    ghost var publishTimes: seq<int>

    ghost predicate Valid()
      reads this, sensor
    {
      && sensor.Valid()
      && sensor.cacheTtl == interval - 1
      && sensor.hostname == settings.hostname
      && Spaced(publishTimes, interval)
      && lastPublish == (if publishTimes == [] then 0 else publishTimes[|publishTimes| - 1])
    }

    /** The `__main__` block: the sensor's TTL is one second below the publish interval. */
    constructor (settings: Settings, interval: int, table: Dict<MetricConfig>)
      ensures Valid() && fresh(sensor)
      ensures this.settings == settings && this.interval == interval && this.table == table
      ensures stage == Idle && trace == [] && lastPublish == 0
      ensures sensor.config.None? && sensor.data == [] && sensor.dataTimestamp == 0
    {
      this.settings := settings;
      this.interval := interval;
      this.table := table;
      sensor := new PurpleAirSensor(settings.hostname, interval - 1);
      willTopic := "";
      trace := [];
      lastPublish := 0;
      stage := Idle;
      publishTimes := [];
    }

    /** `run` up to its loop: the will is set to "false", the client connects and starts its
        network loop, and "true" is published on the will topic, all retained. */
    method Start(response: Option<Dict<Json>>, now: int)
      requires Valid() && stage == Idle
      requires response.Some? ==> Unique(response.value)
      modifies this`willTopic, this`trace, this`stage, sensor
      ensures Valid()
      ensures lastPublish == old(lastPublish) && publishTimes == old(publishTimes)
      ensures sensor.DataCall(response, now)
      ensures TopicName(sensor.data).None? ==> stage == Crashed && trace == old(trace)
      ensures TopicName(sensor.data).Some? ==>
        && stage == Running
        && willTopic == AvailabilityTopic(settings, TopicName(sensor.data).value)
        && trace == old(trace) + StartEvents(willTopic)
    {
      var root := sensor.SensorTopicName(response, now);
      assert Valid();
      if root.None? {
        stage := Crashed;
        return;
      }
      Announce(root.value);
    }

    /** The calls `run` makes on the client once the sensor's root is known. */
    method Announce(root: string)
      modifies this`willTopic, this`trace, this`stage
      ensures willTopic == AvailabilityTopic(settings, root)
      ensures trace == old(trace) + StartEvents(willTopic)
      ensures stage == Running
    {
      willTopic := AvailabilityTopic(settings, root);
      trace := trace + StartEvents(willTopic);
      stage := Running;
    }

    /** `publish_purpleair_config`: the config snapshot, not retained, on `<base>/config`. */
    method PublishPurpleAirConfig(response: Option<Dict<Json>>, now: int) returns (completed: bool)
      requires Valid()
      requires response.Some? ==> Unique(response.value)
      modifies this`trace, sensor
      ensures Valid()
      ensures completed <==> TopicName(sensor.data).Some?
      ensures !completed ==> trace == old(trace)
      ensures completed ==>
        trace == old(trace) + [Publish(Message(ConfigTopic(settings, TopicName(sensor.data).value),
                                               ConfigSnapshot(sensor.config), false))]
      ensures sensor.DataCall(response, now)
    {
      var root := sensor.SensorTopicName(response, now);
      if root.None? {
        return false;
      }
      // A reading with a "SensorId" came from a successful fetch, so the config is known.
      var config := sensor.Config(response, now);
      trace := trace + [Publish(Message(ConfigTopic(settings, root.value), ConfigSnapshot(config), false))];
      completed := true;
    }

    /** One pass of the loop body of `publish_ha_discovery`: the metric's document is
        published when it builds one. */
    method PublishDiscoveryEntry(root: string, sensorId: string, data: Dict<Json>, key: string, config: MetricConfig)
      returns (step: Option<Step>)
      modifies this`trace
      ensures step == DiscoveryStep(settings, root, sensorId, data, key, config)
      ensures step.Some? && step.value.Built? ==> trace == old(trace) + [Publish(step.value.msg)]
      ensures !(step.Some? && step.value.Built?) ==> trace == old(trace)
    {
      step := DiscoveryStep(settings, root, sensorId, data, key, config);
      if step.Some? && step.value.Built? {
        trace := trace + [Publish(step.value.msg)];
      }
    }

    /** The loop of `publish_ha_discovery` over the metric table. */
    method PublishDiscoveryLoop(root: string, sensorId: string, data: Dict<Json>) returns (outcome: Outcome)
      modifies this`trace
      ensures outcome == Discovery(settings, root, sensorId, data, table)
      ensures trace == old(trace) + Published(outcome.sent)
    {
      var sent: seq<Message> := [];
      var failed := false;
      var i := 0;
      while i < |table| && !failed
        invariant 0 <= i <= |table|
        invariant Discovery(settings, root, sensorId, data, table[..i]) == Outcome(sent, failed)
        invariant trace == old(trace) + Published(sent)
      {
        var (key, config) := table[i];
        DiscoveryExtend(settings, root, sensorId, data, table, i);
        var step := PublishDiscoveryEntry(root, sensorId, data, key, config);
        match step {
          case None =>
            failed := true;
          case Some(Skipped) =>
          case Some(Built(m)) =>
            assert Published(sent + [m]) == Published(sent) + [Publish(m)];
            sent := sent + [m];
        }
        i := i + 1;
      }
      if failed {
        DiscoveryFailureStops(settings, root, sensorId, data, table, i);
      } else {
        assert table[..i] == table;
      }
      outcome := Outcome(sent, failed);
    }

    /** `publish_ha_discovery`: one retained document per enabled metric, on its discovery topic. */
    method PublishHaDiscovery(response: Option<Dict<Json>>, now: int) returns (completed: bool)
      requires Valid()
      requires response.Some? ==> Unique(response.value)
      modifies this`trace, sensor
      ensures Valid()
      ensures TopicName(sensor.data).None? ==> !completed && trace == old(trace)
      ensures TopicName(sensor.data).Some? ==>
        var outcome := Discovery(settings, TopicName(sensor.data).value,
                                 Lookup(sensor.data, "SensorId").value.s, sensor.data, table);
        && (completed <==> !outcome.failed)
        && trace == old(trace) + Published(outcome.sent)
      ensures sensor.DataCall(response, now)
    {
      var root := sensor.SensorTopicName(response, now);
      if root.None? {
        return false;
      }
      ghost var afterFirst := sensor.data;
      var data := sensor.Data(response, now);
      assert data == afterFirst;
      var sensorId := Lookup(data, "SensorId").value.s;
      var outcome := PublishDiscoveryLoop(root.value, sensorId, data);
      completed := !outcome.failed;
    }

    /** `on_connect`: on result code 0 the config and then the discovery documents are
        published; otherwise the callback only logs. */
    method OnConnect(rc: int, response: Option<Dict<Json>>, now: int) returns (completed: bool)
      requires Valid() && stage == Running
      requires response.Some? ==> Unique(response.value)
      modifies this`trace, sensor
      ensures Valid()
      ensures rc != 0 ==> completed && trace == old(trace) + [Connected(rc)] && unchanged(sensor)
      ensures rc == 0 && TopicName(sensor.data).None? ==> !completed && trace == old(trace) + [Connected(rc)]
      ensures rc == 0 && TopicName(sensor.data).Some? ==>
        var root := TopicName(sensor.data).value;
        var outcome := Discovery(settings, root, Lookup(sensor.data, "SensorId").value.s, sensor.data, table);
        && (completed <==> !outcome.failed)
        && trace == old(trace) + [Connected(rc)]
                    + [Publish(Message(ConfigTopic(settings, root), ConfigSnapshot(sensor.config), false))]
                    + Published(outcome.sent)
    {
      trace := trace + [Connected(rc)];
      if rc != 0 {
        return true;
      }
      completed := PublishPurpleAirConfig(response, now);
      if !completed {
        return;
      }
      completed := PublishHaDiscovery(response, now);
    }

    /** The loop of `publish_purpleair_data`: every entry of the reading on its data topic. */
    method PublishDataLoop(base: string, data: Dict<Json>)
      modifies this`trace
      ensures trace == old(trace) + DataMessages(base, data)
    {
      for i := 0 to |data|
        invariant trace == old(trace) + DataMessages(base, data[..i])
      {
        var (key, value) := data[i];
        assert DataMessages(base, data[..i + 1]) ==
          DataMessages(base, data[..i]) + [Publish(Message(base + "/" + key, Reading(value), false))];
        trace := trace + [Publish(Message(base + "/" + key, Reading(value), false))];
      }
      assert data[..|data|] == data;
    }

    /** `publish_purpleair_data`: the topic root first (a refetch may happen there), then the
        reading, each entry on `<base>/data/<key>`. The reading published was fetched at this
        call or within the TTL. */
    method PublishPurpleAirData(response: Option<Dict<Json>>, now: int) returns (completed: bool)
      requires Valid()
      requires response.Some? ==> Unique(response.value)
      modifies this`trace, sensor
      ensures Valid()
      ensures sensor.DataCall(response, now)
      ensures completed <==> TopicName(sensor.data).Some?
      ensures !completed ==> trace == old(trace)
      ensures completed ==>
        && trace == old(trace) + DataMessages(TopicBase(settings, TopicName(sensor.data).value) + "/data", sensor.data)
        && (sensor.dataTimestamp == now || now <= sensor.dataTimestamp + sensor.cacheTtl)
    {
      var root := sensor.SensorTopicName(response, now);
      if root.None? {
        return false;
      }
      ghost var afterFirst := sensor.data;
      var data := sensor.Data(response, now);
      assert data == afterFirst;
      PublishDataLoop(TopicBase(settings, root.value) + "/data", data);
      completed := true;
    }

    /** One pass of `run`'s main loop: publish once more than `interval` has passed since
        the last publish; a KeyError there ends the bridge. */
    method Tick(response: Option<Dict<Json>>, now: int)
      requires Valid() && stage == Running
      requires response.Some? ==> Unique(response.value)
      modifies this, sensor
      ensures Valid()
      ensures !old(now > lastPublish + interval) ==>
        && trace == old(trace) && lastPublish == old(lastPublish) && publishTimes == old(publishTimes)
        && stage == Running && unchanged(sensor)
      ensures old(now > lastPublish + interval) ==>
        && sensor.DataCall(response, now)
        && (TopicName(sensor.data).None? ==> stage == Crashed && trace == old(trace) && publishTimes == old(publishTimes))
        && (TopicName(sensor.data).Some? ==>
              && stage == Running
              && lastPublish == now && publishTimes == old(publishTimes) + [now]
              && trace == old(trace) + DataMessages(TopicBase(settings, TopicName(sensor.data).value) + "/data", sensor.data))
    {
      if now > lastPublish + interval {
        var completed := PublishPurpleAirData(response, now);
        if !completed {
          stage := Crashed;
        } else {
          lastPublish := now;
          publishTimes := publishTimes + [now];
        }
      }
    }

    /** `run`'s `while True` loop over a finite schedule of (HTTP outcome, clock) pairs;
        it stops early when a pass crashes. The trace only grows. */
    method RunLoop(schedule: seq<(Option<Dict<Json>>, int)>)
      requires Valid() && stage == Running
      requires forall k :: 0 <= k < |schedule| && schedule[k].0.Some? ==> Unique(schedule[k].0.value)
      modifies this, sensor
      ensures Valid()
      ensures old(trace) <= trace
      ensures old(publishTimes) <= publishTimes
    {
      for k := 0 to |schedule|
        invariant Valid()
        invariant old(trace) <= trace
        invariant old(publishTimes) <= publishTimes
      {
        if stage != Running {
          break;
        }
        Tick(schedule[k].0, schedule[k].1);
      }
    }
  }
}
