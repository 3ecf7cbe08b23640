/**
 * The allow-list of supported capability/attribute pairs. Only capabilities on
 * this list reach the live view, and a device status reply is read through it.
 */
module Capabilities {
  import opened Wrappers
  import opened Values

  /** Supported (capability, attribute) pairs, in the order the status refresh visits them. */
  const DevList: seq<(string, string)> := [
    ("presenceSensor", "presence"), ("battery", "battery"), ("switch", "switch"),
    ("switchLevel", "level"), ("doorControl", "door"), ("lock", "lock"),
    ("temperatureMeasurement", "temperature"), ("relativeHumidityMeasurement", "humidity"),
    ("contactSensor", "contact"), ("motionSensor", "motion"),
    ("thermostatCoolingSetpoint", "coolingSetpoint"),
    ("thermostatOperatingState", "thermostatOperatingState"),
    ("thermostatFanMode", "thermostatFanMode"),
    ("thermostatHeatingSetpoint", "heatingSetpoint"), ("thermostatMode", "thermostatMode")
  ]

  /** The first components of `pairs`, in order. */
  function Firsts<K, V>(pairs: seq<(K, V)>): (r: seq<K>)
    ensures |r| == |pairs| && forall i :: 0 <= i < |pairs| ==> r[i] == pairs[i].0
  {
    if pairs == [] then [] else Firsts(pairs[..|pairs| - 1]) + [pairs[|pairs| - 1].0]
  }

  /** The supported capability ids: the first component of each DevList pair. */
  const CapList: seq<string> := Firsts(DevList)

  predicate DistinctKeys<K(==), V>(pairs: seq<(K, V)>) {
    forall i, j :: 0 <= i < j < |pairs| ==> pairs[i].0 != pairs[j].0
  }

  /**
   * The main component of a device status reply: capability id to attribute
   * name to the attribute's current value.
   */
  type StatusReply = map<string, map<string, Value>>

  /** The value a reply reports for the pair `p`, if it reports one. */
  function Reported(reply: StatusReply, p: (string, string)): Option<Value> {
    if p.0 in reply && p.1 in reply[p.0] then Some(reply[p.0][p.1]) else None
  }

  /**
   * The value that capability `capId` ends up with after the pairs of `pairs`
   * are visited in order: the last pair naming `capId` whose attribute the
   * reply reports wins.
   */
  function PickStatus(pairs: seq<(string, string)>, reply: StatusReply, capId: string): Option<Value> {
    if pairs == [] then None
    else
      var p := pairs[|pairs| - 1];
      if p.0 == capId && Reported(reply, p).Some? then Reported(reply, p)
      else PickStatus(pairs[..|pairs| - 1], reply, capId)
  }

  /** The value a status reply gives capability `capId` when read through DevList. */
  function StatusValue(reply: StatusReply, capId: string): Option<Value> {
    PickStatus(DevList, reply, capId)
  }

  lemma {:induction false} PickStatusOfDistinct(pairs: seq<(string, string)>, reply: StatusReply, capId: string)
    requires DistinctKeys(pairs)
    ensures PickStatus(pairs, reply, capId).Some? <==> exists k :: 0 <= k < |pairs| && pairs[k].0 == capId && Reported(reply, pairs[k]).Some?
    ensures forall k :: 0 <= k < |pairs| && pairs[k].0 == capId ==> PickStatus(pairs, reply, capId) == Reported(reply, pairs[k])
  {
    if pairs != [] {
      var init := pairs[..|pairs| - 1];
      assert DistinctKeys(init) by {
        forall i, j | 0 <= i < j < |init| ensures init[i].0 != init[j].0 {
          assert init[i] == pairs[i] && init[j] == pairs[j];
        }
      }
      PickStatusOfDistinct(init, reply, capId);
      forall k | 0 <= k < |init| ensures init[k] == pairs[k] { }
    }
  }

  lemma DevListHasDistinctKeys()
    ensures DistinctKeys(DevList)
  {
  }

  /**
   * A status reply is read through the allow-list: a capability gets a value
   * exactly when it is on CapList and the reply reports the attribute DevList
   * pairs it with, and then it gets that attribute's value.
   */
  lemma StatusValueReadsAllowList(reply: StatusReply, capId: string)
    ensures StatusValue(reply, capId).Some? ==> capId in CapList
    ensures forall k :: 0 <= k < |DevList| && DevList[k].0 == capId ==>
      StatusValue(reply, capId) == Reported(reply, DevList[k])
  {
    DevListHasDistinctKeys();
    PickStatusOfDistinct(DevList, reply, capId);
    if StatusValue(reply, capId).Some? {
      var k :| 0 <= k < |DevList| && DevList[k].0 == capId && Reported(reply, DevList[k]).Some?;
      assert CapList[k] == capId;
    }
  }
}
