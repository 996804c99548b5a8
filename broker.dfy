/**
  What the bridge hands to the MQTT client, recorded as a trace of events.
  Payloads stay structured: `json.dumps` and `str()` serialisation are not modelled.
 */
module Broker {
  import opened Wrappers
  import opened PyDict
  import opened JsonValue

  datatype Payload =
    | Text(text: string)                          // "true" / "false" on the availability topic
    | Reading(value: Json)                        // one raw reading value
    | Document(doc: Json)                         // a discovery document, before json.dumps
    | ConfigSnapshot(config: Option<Dict<Json>>)  // str(sensor.config()); None prints as "None"

  datatype Message = Message(topic: string, payload: Payload, retain: bool)

  datatype Event =
    | WillSet(will: Message)   // client.will_set
    | Connect                  // client.connect
    | LoopStart                // client.loop_start
    | Connected(rc: int)       // the on_connect callback runs with result code rc
    | Publish(msg: Message)    // client.publish

  /** What one metric of `publish_ha_discovery` yields when no KeyError strikes: nothing,
      or its discovery message. */
  datatype Step = Skipped | Built(msg: Message)

  /** What a run of `publish_ha_discovery` sends, and whether it stopped on a KeyError. */
  datatype Outcome = Outcome(sent: seq<Message>, failed: bool)

  /** Where a bridge is: before `run`, in its loop, or stopped by an uncaught exception. */
  datatype Stage = Idle | Running | Crashed

  /** One data message per entry of the reading, in dict order, on `<base>/<key>`. */
  function DataMessages(base: string, data: Dict<Json>): (r: seq<Event>)
    ensures |r| == |data|
    ensures forall i :: 0 <= i < |data| ==>
      r[i] == Publish(Message(base + "/" + data[i].0, Reading(data[i].1), false))
  {
    seq(|data|, i requires 0 <= i < |data| => Publish(Message(base + "/" + data[i].0, Reading(data[i].1), false)))
  }

  /** The events of publishing `ms` in order. */
  function Published(ms: seq<Message>): (r: seq<Event>)
    ensures |r| == |ms|
    ensures forall i :: 0 <= i < |ms| ==> r[i] == Publish(ms[i])
  {
    seq(|ms|, i requires 0 <= i < |ms| => Publish(ms[i]))
  }
}
