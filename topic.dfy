/** The topic layout both bridge variants share, and the topic root they derive from the sensor's id. */
module SensorTopic {
  import opened Wrappers
  import opened PyDict
  import opened JsonValue
  import opened Text
  import opened Broker

  const TopicNamePrefix: string := "purpleair-"

  /** `"purpleair-" + data["SensorId"].replace(":", "")`; `None` where the source
      raises: the reading has no "SensorId" (KeyError) or it is not a string. The
      root is the prefix followed by the colon-separated pieces of the id, in order. */
  function TopicName(data: Dict<Json>): (r: Option<string>)
    ensures r.Some? <==> Lookup(data, "SensorId").Some? && Lookup(data, "SensorId").value.Str?
    ensures r.Some? ==> var id := Lookup(data, "SensorId").value.s;
      && r.value == TopicNamePrefix + Concat(Split(id, ':'))
      && ':' !in r.value
      && forall ch :: ch != ':' ==> (ch in r.value[|TopicNamePrefix|..] <==> ch in id)
  {
    var sensorId: Option<Json> := Lookup(data, "SensorId");
    match sensorId
    case Some(Str(id)) =>
      var name := TopicNamePrefix + RemoveAll(id, ':');
      RemoveAllOfJoin(Split(id, ':'), ':');
      assert name[|TopicNamePrefix|..] == RemoveAll(id, ':');
      forall ch | ch != ':' ensures ch in name[|TopicNamePrefix|..] <==> ch in id {
        RemoveAllKeeps(id, ':', ch);
      }
      Some(name)
    case _ => None
  }

  /** An id made of colon-free parts joined by ':' (the MAC-style form the sensor
      reports) gives the root "purpleair-" followed by the parts run together. */
  lemma TopicNameOfParts(parts: seq<string>, data: Dict<Json>)
    requires forall i :: 0 <= i < |parts| ==> ':' !in parts[i]
    requires Lookup(data, "SensorId") == Some(Str(Join(parts, ':')))
    ensures TopicName(data) == Some(TopicNamePrefix + Concat(parts))
  {
    RemoveAllOfJoin(parts, ':');
  }

  /** PURPLEAIR_MQTT_PREFIX, HA_DISCOVERY_PREFIX and PURPLEAIR_HOSTNAME. */
  datatype Settings = Settings(mqttPrefix: string, discoveryPrefix: string, hostname: string)

  /** `<prefix>/<root>`: the "~" of every document and the base of the bridge's own topics. */
  function TopicBase(s: Settings, root: string): string
  {
    s.mqttPrefix + "/" + root
  }

  /** `<base>/data/<key>`: where the reading of `key` is published. */
  function StateTopic(s: Settings, root: string, key: string): string
  {
    TopicBase(s, root) + "/data/" + key
  }

  /** `<base>/online`: the last-will / availability topic. */
  function AvailabilityTopic(s: Settings, root: string): string
  {
    TopicBase(s, root) + "/online"
  }

  function DiscoveryTopic(s: Settings, domain: string, root: string, key: string): string
  {
    s.discoveryPrefix + "/" + domain + "/" + root + "-" + key + "/config"
  }

  /** The data topic of `key` is the state topic its discovery document announces. */
  lemma DataTopicIsStateTopic(s: Settings, root: string, data: Dict<Json>, i: nat)
    requires i < |data|
    ensures DataMessages(TopicBase(s, root) + "/data", data)[i].msg.topic == StateTopic(s, root, data[i].0)
  {
    var tb := TopicBase(s, root);
    assert tb + "/data" + "/" + data[i].0 == tb + "/data/" + data[i].0;
  }

  /** `config_topic` of `publish_purpleair_config`. */
  function ConfigTopic(s: Settings, root: string): string
  {
    TopicBase(s, root) + "/config"
  }

  /** The bridge's own topics under one root never collide: each reading entry has its
      own state topic, and none of them is the availability or the config topic. */
  lemma OwnTopicsDistinct(s: Settings, root: string, k1: string, k2: string)
    ensures StateTopic(s, root, k1) == StateTopic(s, root, k2) ==> k1 == k2
    ensures StateTopic(s, root, k1) != AvailabilityTopic(s, root)
    ensures StateTopic(s, root, k1) != ConfigTopic(s, root)
    ensures AvailabilityTopic(s, root) != ConfigTopic(s, root)
  {
    var b := TopicBase(s, root);
    var n := |b|;
    assert StateTopic(s, root, k1)[n + 1] == 'd';
    assert AvailabilityTopic(s, root)[n + 1] == 'o';
    assert ConfigTopic(s, root)[n + 1] == 'c';
    if StateTopic(s, root, k1) == StateTopic(s, root, k2) {
      assert k1 == StateTopic(s, root, k1)[n + 6..];
      assert k2 == StateTopic(s, root, k2)[n + 6..];
    }
  }

  /** Two metrics of one domain are announced on distinct discovery topics, so their
      retained documents never replace each other. */
  lemma DiscoveryTopicsDistinct(s: Settings, domain: string, root: string, k1: string, k2: string)
    requires DiscoveryTopic(s, domain, root, k1) == DiscoveryTopic(s, domain, root, k2)
    ensures k1 == k2
  {
    var p := s.discoveryPrefix + "/" + domain + "/" + root + "-";
    assert DiscoveryTopic(s, domain, root, k1) == p + k1 + "/config";
    assert DiscoveryTopic(s, domain, root, k2) == p + k2 + "/config";
    assert |k1| == |k2|;
    assert k1 == (p + k1 + "/config")[|p|..|p| + |k1|];
    assert k2 == (p + k2 + "/config")[|p|..|p| + |k2|];
  }

  /** The four calls both variants' `run` makes on the client once the will topic is known. */
  function StartEvents(will: string): seq<Event>
  {
    [ WillSet(Message(will, Text("false"), true)),
      Connect,
      LoopStart,
      Publish(Message(will, Text("true"), true)) ]
  }
}
