/**
  The sensor reading cache of purpleair-to-mqtt/purpleair_to_mqtt.py (`PurpleAirSensor`).

  Unlike the container variant it fetches once on construction, stores the
  JSON object as it is (no key repair), uses a fixed 60-second TTL, and derives
  the topic root from the cached reading without ever refetching.
 */
module LegacySensor {
  import opened Wrappers
  import opened PyDict
  import opened JsonValue
  import SensorTopic

  /** CONFIG_DATA_KEYS of this variant (the same names as the container's, in another order). */
  const ConfigDataKeys: seq<string> :=
    ["Geo", "hardwarediscovered", "hardwareversion", "Id", "lat", "lon", "SensorId", "ssid", "version"]

  /** The TTL `data()` compares against. */
  const CacheTtl: int := 60

  class PurpleAirSensor {
    const hostname: string
    var config: Option<Dict<Json>>
    var data: Dict<Json>
    var dataTimestamp: int

    /** The reading is a dict; the config holds only allow-listed keys and is missing only
        while no fetch has succeeded, when the reading is empty too. */
    ghost predicate Valid()
      reads this
    {
      && Unique(data)
      && (config.None? ==> data == [])
      && (config.Some? ==> Unique(config.value) && forall k :: k in Keys(config.value) ==> k in ConfigDataKeys)
    }

    /** The state a fetch with `response` at time `now` leaves, `oldConfig` being the config before it. */
    ghost predicate Fetched(response: Option<Dict<Json>>, oldConfig: Option<Dict<Json>>, now: int)
      reads this
    {
      match response
      case Some(json) => data == json && config == Some(Filter(json, ConfigDataKeys)) && dataTimestamp == now
      case None => data == [] && dataTimestamp == 0 && config == oldConfig
    }

    /** What a call of `data()` at `now` leaves: a fetch when the reading is older than
        60 seconds, otherwise the cache as it was. */
    twostate predicate DataCall(response: Option<Dict<Json>>, now: int)
      reads this
    {
      if old(now > dataTimestamp + CacheTtl) then Fetched(response, old(config), now)
      else data == old(data) && dataTimestamp == old(dataTimestamp) && config == old(config)
    }

    /** `__init__`: starts empty and fetches once. A request that raises leaves the same
        state as one that is not ok, so both are `response == None`. */
    constructor (hostname: string, response: Option<Dict<Json>>, now: int)
      requires response.Some? ==> Unique(response.value)
      ensures Valid()
      ensures this.hostname == hostname
      ensures Fetched(response, None, now)
    {
      this.hostname := hostname;
      match response
      case Some(json) =>
        data := json;
        config := Some(Filter(json, ConfigDataKeys));
        dataTimestamp := now;
      case None =>
        config := None;
        data := [];
        dataTimestamp := 0;
    }

    /** `fetch_purpleair_data`: `response` is the decoded body when the request succeeded. */
    method FetchPurpleAirData(response: Option<Dict<Json>>, now: int)
      requires Valid()
      requires response.Some? ==> Unique(response.value)
      modifies this
      ensures Valid()
      ensures Fetched(response, old(config), now)
    {
      match response
      case Some(json) =>
        data := json;
        config := Some(Filter(data, ConfigDataKeys));
        dataTimestamp := now;
      case None =>
        data := [];
        dataTimestamp := 0;
    }

    /** `config()`: fetches only while no config has been obtained yet. */
    method Config(response: Option<Dict<Json>>, now: int) returns (c: Option<Dict<Json>>)
      requires Valid()
      requires response.Some? ==> Unique(response.value)
      modifies this
      ensures Valid()
      ensures c == config
      ensures old(config).None? ==> Fetched(response, old(config), now)
      ensures old(config).Some? ==> unchanged(this)
    {
      if config.None? {
        FetchPurpleAirData(response, now);
      }
      c := config;
    }

    /** `data()`: refetches exactly when `now > timestamp + 60`, else serves the cache. */
    method Data(response: Option<Dict<Json>>, now: int) returns (d: Dict<Json>)
      requires Valid()
      requires response.Some? ==> Unique(response.value)
      modifies this
      ensures Valid()
      ensures d == data
      ensures DataCall(response, now)
    {
      if now > dataTimestamp + CacheTtl {
        FetchPurpleAirData(response, now);
      }
      d := data;
    }

    /** `sensor_topic_name()`: reads the cached reading only, never fetching. */
    method SensorTopicName() returns (name: Option<string>)
      ensures name == SensorTopic.TopicName(data)
    {
      name := SensorTopic.TopicName(data);
    }
  }

  /** A sensor whose first fetch failed has no topic root: the bridge cannot start. */
  method FailedFirstFetch(hostname: string, now: int)
    returns (name: Option<string>, config: Option<Dict<Json>>, timestamp: int)
    ensures name.None? && config.None? && timestamp == 0
  {
    var sensor := new PurpleAirSensor(hostname, None, now);
    name := sensor.SensorTopicName();
    config, timestamp := sensor.config, sensor.dataTimestamp;
  }
}
