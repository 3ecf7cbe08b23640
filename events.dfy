/**
 * Incremental events on the live tree: a capability event (`updateDevice`)
 * sets a capability state, and a health event (`updateDeviceHealth`) sets a
 * device's health. The functions state the effect on the tree; the methods
 * are the traversal loops, proved against them.
 */
module Events {
  import opened Wrappers
  import opened Values
  import opened LiveView
  import opened Store

  const PresenceSensor: string := "presenceSensor"

  /** The value handed back for the browsers: a channel name and the change it reports. */
  datatype Emission = Emission(channel: string, deviceId: string, capability: string, value: Value)

  predicate Differs(first: Option<Value>, v: Value) {
    first.Some? && first.value != v
  }

  // ------------------------------------------------------- one capability list

  /** Every capability named `capId` takes the state `v`. */
  function SetState(caps: seq<LiveCap>, capId: string, v: Value): (r: seq<LiveCap>)
    ensures |r| == |caps|
  {
    if caps == [] then []
    else
      var c := caps[|caps| - 1];
      SetState(caps[..|caps| - 1], capId, v) + [if c.id == capId then c.(state := v) else c]
  }

  /** Each capability is set on its own: the ones named `capId` take `v`, the others stay. */
  lemma {:induction false} SetStateAt(caps: seq<LiveCap>, capId: string, v: Value, k: nat)
    requires k < |caps|
    ensures SetState(caps, capId, v)[k] == if caps[k].id == capId then caps[k].(state := v) else caps[k]
  {
    if k < |caps| - 1 {
      SetStateAt(caps[..|caps| - 1], capId, v, k);
    }
  }

  /** The state of the first capability named `capId`, if there is one. */
  function FirstState(caps: seq<LiveCap>, capId: string): Option<Value> {
    if caps == [] then None
    else
      var first := FirstState(caps[..|caps| - 1], capId);
      var c := caps[|caps| - 1];
      if first.Some? then first else if c.id == capId then Some(c.state) else None
  }

  /** Some capability named `capId` is in state `v`. */
  function StateSeen(caps: seq<LiveCap>, capId: string, v: Value): bool {
    if caps == [] then false
    else
      var c := caps[|caps| - 1];
      StateSeen(caps[..|caps| - 1], capId, v) || (c.id == capId && c.state == v)
  }

  lemma {:induction false} FirstStateFacts(caps: seq<LiveCap>, capId: string)
    ensures FirstState(caps, capId).None? <==> forall k :: 0 <= k < |caps| ==> caps[k].id != capId
    ensures FirstState(caps, capId).Some? ==> StateSeen(caps, capId, FirstState(caps, capId).value)
    ensures forall v :: StateSeen(caps, capId, v) ==> FirstState(caps, capId).Some?
  {
    if caps != [] {
      var init := caps[..|caps| - 1];
      FirstStateFacts(init, capId);
      forall k | 0 <= k < |init| ensures init[k] == caps[k] { }
      var first := FirstState(init, capId);
      if first.Some? {
        StateSeenMonotone(init, caps[|caps| - 1], capId, first.value);
      }
    }
  }

  lemma StateSeenMonotone(init: seq<LiveCap>, c: LiveCap, capId: string, v: Value)
    ensures StateSeen(init, capId, v) ==> StateSeen(init + [c], capId, v)
  {
    assert (init + [c])[..|init|] == init;
  }

  /** After the update every capability named `capId` is in state `v`. */
  lemma {:induction false} SetStateSettles(caps: seq<LiveCap>, capId: string, v: Value)
    ensures FirstState(SetState(caps, capId, v), capId) == if FirstState(caps, capId).Some? then Some(v) else None
    ensures SetState(SetState(caps, capId, v), capId, v) == SetState(caps, capId, v)
  {
    if caps != [] {
      var init := caps[..|caps| - 1];
      SetStateSettles(init, capId, v);
      var r := SetState(caps, capId, v);
      assert r[..|r| - 1] == SetState(init, capId, v);
    }
  }

  /**
   * The innermost loop of the room branch of `updateDevice`: each capability
   * named `capId` takes `v`; `flag` (the `emit_data` flag) drops once a
   * match already holds `v`; `wrote` records that a match was reached while
   * the flag still stood, which is when the store is written and the change
   * emitted.
   */
  method SetInCaps(caps: seq<LiveCap>, capId: string, v: Value, flag: bool)
    returns (r: seq<LiveCap>, flagOut: bool, wrote: bool)
    ensures r == SetState(caps, capId, v)
    ensures flagOut == (flag && !StateSeen(caps, capId, v))
    ensures wrote == (flag && Differs(FirstState(caps, capId), v))
  {
    ghost var spec := SetState(caps, capId, v);
    r, flagOut, wrote := caps, flag, false;
    assert spec[..0] + caps[0..] == caps;
    var j := 0;
    while j < |caps|
      invariant 0 <= j <= |caps|
      invariant r == spec[..j] + caps[j..]
      invariant flagOut == (flag && !StateSeen(caps[..j], capId, v))
      invariant wrote == (flag && Differs(FirstState(caps[..j], capId), v))
    {
      CapsStep(caps, j, capId, v);
      if caps[j].id == capId {
        assert r[j := caps[j].(state := v)] == spec[..j + 1] + caps[j + 1..] by {
          SetStateAt(caps, capId, v, j);
          SpliceStep(spec, caps, j);
        }
        if caps[j].state == v {
          flagOut := false;
        }
        r := r[j := caps[j].(state := v)];
        if flagOut {
          wrote := true;
        }
      } else {
        assert r == spec[..j + 1] + caps[j + 1..] by {
          SetStateAt(caps, capId, v, j);
          SpliceKeep(spec, caps, j);
        }
      }
      j := j + 1;
    }
    assert caps[..j] == caps && spec[..j] + caps[j..] == spec;
  }

  /** One capability more of the loop of `SetInCaps`, on values. */
  lemma CapsStep(caps: seq<LiveCap>, j: nat, capId: string, v: Value)
    requires j < |caps|
    ensures StateSeen(caps[..j + 1], capId, v) == (StateSeen(caps[..j], capId, v) || (caps[j].id == capId && caps[j].state == v))
    ensures Differs(FirstState(caps[..j + 1], capId), v) ==
      (Differs(FirstState(caps[..j], capId), v) || (!StateSeen(caps[..j], capId, v) && caps[j].id == capId && caps[j].state != v))
  {
    assert caps[..j + 1][..j] == caps[..j];
    FirstStateFacts(caps[..j], capId);
    ThreadFlag(FirstState(caps[..j], capId), if caps[j].id == capId then Some(caps[j].state) else None, v, StateSeen(caps[..j], capId, v));
  }

  // ------------------------------------------------------------ device lists

  /** Every device `devId` has its capabilities named `capId` set to `v`. */
  function SetStateInDevices(devs: seq<LiveDevice>, devId: string, capId: string, v: Value): (r: seq<LiveDevice>)
    ensures |r| == |devs|
  {
    if devs == [] then []
    else
      var d := devs[|devs| - 1];
      SetStateInDevices(devs[..|devs| - 1], devId, capId, v)
        + [if d.deviceId == devId then d.(capabilities := SetState(d.capabilities, capId, v)) else d]
  }

  lemma {:induction false} SetStateInDevicesAt(devs: seq<LiveDevice>, devId: string, capId: string, v: Value, k: nat)
    requires k < |devs|
    ensures SetStateInDevices(devs, devId, capId, v)[k] ==
      if devs[k].deviceId == devId then devs[k].(capabilities := SetState(devs[k].capabilities, capId, v)) else devs[k]
  {
    if k < |devs| - 1 {
      SetStateInDevicesAt(devs[..|devs| - 1], devId, capId, v, k);
    }
  }

  function FirstInDevices(devs: seq<LiveDevice>, devId: string, capId: string): Option<Value> {
    if devs == [] then None
    else
      var first := FirstInDevices(devs[..|devs| - 1], devId, capId);
      var d := devs[|devs| - 1];
      if first.Some? then first else if d.deviceId == devId then FirstState(d.capabilities, capId) else None
  }

  function SeenInDevices(devs: seq<LiveDevice>, devId: string, capId: string, v: Value): bool {
    if devs == [] then false
    else
      var d := devs[|devs| - 1];
      SeenInDevices(devs[..|devs| - 1], devId, capId, v) || (d.deviceId == devId && StateSeen(d.capabilities, capId, v))
  }

  /** A device `devId` carrying a capability `capId`. */
  predicate HasMatch(d: LiveDevice, devId: string, capId: string) {
    d.deviceId == devId && exists k :: 0 <= k < |d.capabilities| && d.capabilities[k].id == capId
  }

  lemma {:induction false} FirstInDevicesFacts(devs: seq<LiveDevice>, devId: string, capId: string)
    ensures FirstInDevices(devs, devId, capId).None? <==> forall i :: 0 <= i < |devs| ==> !HasMatch(devs[i], devId, capId)
    ensures FirstInDevices(devs, devId, capId).Some? ==> SeenInDevices(devs, devId, capId, FirstInDevices(devs, devId, capId).value)
    ensures forall v :: SeenInDevices(devs, devId, capId, v) ==> FirstInDevices(devs, devId, capId).Some?
  {
    if devs != [] {
      var init, d := devs[..|devs| - 1], devs[|devs| - 1];
      FirstInDevicesFacts(init, devId, capId);
      FirstStateFacts(d.capabilities, capId);
      forall i | 0 <= i < |init| ensures init[i] == devs[i] { }
      var first := FirstInDevices(init, devId, capId);
      if first.Some? {
        assert (init + [d])[..|init|] == init;
        assert devs == init + [d];
      }
    }
  }

  lemma {:induction false} SetStateInDevicesSettles(devs: seq<LiveDevice>, devId: string, capId: string, v: Value)
    ensures FirstInDevices(SetStateInDevices(devs, devId, capId, v), devId, capId) ==
      if FirstInDevices(devs, devId, capId).Some? then Some(v) else None
    ensures SetStateInDevices(SetStateInDevices(devs, devId, capId, v), devId, capId, v) == SetStateInDevices(devs, devId, capId, v)
  {
    if devs != [] {
      var init, d := devs[..|devs| - 1], devs[|devs| - 1];
      SetStateInDevicesSettles(init, devId, capId, v);
      SetStateSettles(d.capabilities, capId, v);
      var r := SetStateInDevices(devs, devId, capId, v);
      assert r[..|r| - 1] == SetStateInDevices(init, devId, capId, v);
    }
  }

  /**
   * The device loop of `updateDevice`: the capability loop on every device
   * `devId`, with the flag threaded through. `found` is set when some device
   * `devId` carries a capability `capId`.
   */
  method SetInDevices(devs: seq<LiveDevice>, devId: string, capId: string, v: Value, flag: bool)
    returns (r: seq<LiveDevice>, flagOut: bool, wrote: bool, found: bool)
    ensures r == SetStateInDevices(devs, devId, capId, v)
    ensures flagOut == (flag && !SeenInDevices(devs, devId, capId, v))
    ensures wrote == (flag && Differs(FirstInDevices(devs, devId, capId), v))
    ensures found == FirstInDevices(devs, devId, capId).Some?
  {
    ghost var spec := SetStateInDevices(devs, devId, capId, v);
    ghost var first: Option<Value>, seen, done := None, false, [];
    r, flagOut, wrote, found := devs, flag, false, false;
    assert spec[..0] + devs[0..] == devs;
    var i := 0;
    while i < |devs|
      invariant 0 <= i <= |devs|
      invariant r == spec[..i] + devs[i..]
      invariant done == devs[..i]
      invariant first == FirstInDevices(done, devId, capId)
      invariant seen == SeenInDevices(done, devId, capId, v)
      invariant (first == Some(v) ==> seen) && (seen ==> first.Some?)
      invariant flagOut == (flag && !seen)
      invariant wrote == (flag && Differs(first, v))
      invariant found == first.Some?
    {
      var d := devs[i];
      DevicesSnoc(done, d, devId, capId, v);
      FlagStep(first, seen, d, devId, capId, v);
      var d', flag', wrote' := SetInDevice(d, devId, capId, v, flagOut);
      assert r[i := d'] == spec[..i + 1] + devs[i + 1..] by {
        SetStateInDevicesAt(devs, devId, capId, v, i);
        SpliceStep(spec, devs, i);
      }
      r := r[i := d'];
      flagOut := flag';
      wrote := wrote || wrote';
      found := found || (d.deviceId == devId && FirstState(d.capabilities, capId).Some?);
      first := if first.Some? then first else if d.deviceId == devId then FirstState(d.capabilities, capId) else None;
      seen := seen || (d.deviceId == devId && StateSeen(d.capabilities, capId, v));
      done := done + [d];
      assert devs[..i + 1] == devs[..i] + [d];
      i := i + 1;
    }
    assert devs[..i] == devs && spec[..i] + devs[i..] == spec;
  }

  /** One device of the loop of `SetInDevices`: the capability loop when it is device `devId`. */
  method SetInDevice(d: LiveDevice, devId: string, capId: string, v: Value, flag: bool)
    returns (d': LiveDevice, flag': bool, wrote: bool)
    ensures d' == if d.deviceId == devId then d.(capabilities := SetState(d.capabilities, capId, v)) else d
    ensures flag' == (flag && !(d.deviceId == devId && StateSeen(d.capabilities, capId, v)))
    ensures wrote == (flag && d.deviceId == devId && Differs(FirstState(d.capabilities, capId), v))
  {
    d', flag', wrote := d, flag, false;
    if d.deviceId == devId {
      var caps;
      caps, flag', wrote := SetInCaps(d.capabilities, capId, v, flag);
      d' := d.(capabilities := caps);
    }
  }

  /**
   * The `emit_data` flag across one device: the first match so far and
   * whether `v` was seen keep agreeing, and a difference is reported by this
   * device only when no earlier match held `v`.
   */
  lemma FlagStep(first: Option<Value>, seen: bool, d: LiveDevice, devId: string, capId: string, v: Value)
    requires (first == Some(v) ==> seen) && (seen ==> first.Some?)
    ensures var next := if d.deviceId == devId then FirstState(d.capabilities, capId) else None;
      var first' := if first.Some? then first else next;
      var seen' := seen || (d.deviceId == devId && StateSeen(d.capabilities, capId, v));
      && (first' == Some(v) ==> seen') && (seen' ==> first'.Some?)
      && Differs(first', v) == (Differs(first, v) || (!seen && d.deviceId == devId && Differs(FirstState(d.capabilities, capId), v)))
  {
    FirstStateFacts(d.capabilities, capId);
    ThreadFlag(first, if d.deviceId == devId then FirstState(d.capabilities, capId) else None, v, seen);
  }

  /** One device more of the loop of `SetInDevices`, on values. */
  lemma DevicesSnoc(done: seq<LiveDevice>, d: LiveDevice, devId: string, capId: string, v: Value)
    ensures FirstInDevices(done + [d], devId, capId) ==
      var first := FirstInDevices(done, devId, capId);
      if first.Some? then first else if d.deviceId == devId then FirstState(d.capabilities, capId) else None
    ensures SeenInDevices(done + [d], devId, capId, v) ==
      (SeenInDevices(done, devId, capId, v) || (d.deviceId == devId && StateSeen(d.capabilities, capId, v)))
  {
    assert (done + [d])[..|done|] == done;
  }

  // ------------------------------------------------------------------- rooms

  function SetStateInRooms(rooms: seq<LiveRoom>, devId: string, capId: string, v: Value): (r: seq<LiveRoom>)
    ensures |r| == |rooms|
  {
    if rooms == [] then []
    else
      var rm := rooms[|rooms| - 1];
      SetStateInRooms(rooms[..|rooms| - 1], devId, capId, v) + [rm.(devices := SetStateInDevices(rm.devices, devId, capId, v))]
  }

  lemma {:induction false} SetStateInRoomsAt(rooms: seq<LiveRoom>, devId: string, capId: string, v: Value, k: nat)
    requires k < |rooms|
    ensures SetStateInRooms(rooms, devId, capId, v)[k] == rooms[k].(devices := SetStateInDevices(rooms[k].devices, devId, capId, v))
  {
    if k < |rooms| - 1 {
      SetStateInRoomsAt(rooms[..|rooms| - 1], devId, capId, v, k);
    }
  }

  /** The state of the first matching capability, in traversal order (room by room, device by device). */
  function FirstInRooms(rooms: seq<LiveRoom>, devId: string, capId: string): Option<Value> {
    if rooms == [] then None
    else
      var first := FirstInRooms(rooms[..|rooms| - 1], devId, capId);
      if first.Some? then first else FirstInDevices(rooms[|rooms| - 1].devices, devId, capId)
  }

  function SeenInRooms(rooms: seq<LiveRoom>, devId: string, capId: string, v: Value): bool {
    if rooms == [] then false
    else SeenInRooms(rooms[..|rooms| - 1], devId, capId, v) || SeenInDevices(rooms[|rooms| - 1].devices, devId, capId, v)
  }

  lemma {:induction false} FirstInRoomsFacts(rooms: seq<LiveRoom>, devId: string, capId: string)
    ensures FirstInRooms(rooms, devId, capId).None? <==>
      forall i, j :: 0 <= i < |rooms| && 0 <= j < |rooms[i].devices| ==> !HasMatch(rooms[i].devices[j], devId, capId)
    ensures FirstInRooms(rooms, devId, capId).Some? ==> SeenInRooms(rooms, devId, capId, FirstInRooms(rooms, devId, capId).value)
    ensures forall v :: SeenInRooms(rooms, devId, capId, v) ==> FirstInRooms(rooms, devId, capId).Some?
  {
    if rooms != [] {
      var init, rm := rooms[..|rooms| - 1], rooms[|rooms| - 1];
      FirstInRoomsFacts(init, devId, capId);
      FirstInDevicesFacts(rm.devices, devId, capId);
      forall i | 0 <= i < |init| ensures init[i] == rooms[i] { }
    }
  }

  lemma {:induction false} SetStateInRoomsSettles(rooms: seq<LiveRoom>, devId: string, capId: string, v: Value)
    ensures FirstInRooms(SetStateInRooms(rooms, devId, capId, v), devId, capId) ==
      if FirstInRooms(rooms, devId, capId).Some? then Some(v) else None
    ensures SetStateInRooms(SetStateInRooms(rooms, devId, capId, v), devId, capId, v) == SetStateInRooms(rooms, devId, capId, v)
  {
    if rooms != [] {
      var init, rm := rooms[..|rooms| - 1], rooms[|rooms| - 1];
      SetStateInRoomsSettles(init, devId, capId, v);
      SetStateInDevicesSettles(rm.devices, devId, capId, v);
      var r := SetStateInRooms(rooms, devId, capId, v);
      assert r[..|r| - 1] == SetStateInRooms(init, devId, capId, v);
    }
  }

  /**
   * How the `emit_data` flag threads from one part of the traversal to the
   * next: the later part can only report when no earlier match held `v`.
   */
  lemma ThreadFlag(fp: Option<Value>, fn: Option<Value>, v: Value, seen: bool)
    requires fp == Some(v) ==> seen
    requires seen ==> fp.Some?
    ensures (Differs(fp, v) || (!seen && Differs(fn, v))) == Differs(if fp.Some? then fp else fn, v)
  {
  }

  /** The room loop of the room branch of `updateDevice`. */
  method SetInRooms(rooms: seq<LiveRoom>, devId: string, capId: string, v: Value)
    returns (r: seq<LiveRoom>, wrote: bool)
    ensures r == SetStateInRooms(rooms, devId, capId, v)
    ensures wrote == Differs(FirstInRooms(rooms, devId, capId), v)
  {
    ghost var spec := SetStateInRooms(rooms, devId, capId, v);
    ghost var first: Option<Value>, seen := None, false;
    r, wrote := rooms, false;
    var flag := true;
    assert spec[..0] + rooms[0..] == rooms;
    var i := 0;
    while i < |rooms|
      invariant 0 <= i <= |rooms|
      invariant r == spec[..i] + rooms[i..]
      invariant first == FirstInRooms(rooms[..i], devId, capId)
      invariant seen == SeenInRooms(rooms[..i], devId, capId, v)
      invariant (first == Some(v) ==> seen) && (seen ==> first.Some?)
      invariant flag == !seen
      invariant wrote == Differs(first, v)
    {
      RoomsStep(rooms, i, devId, capId, v);
      ghost var next := FirstInDevices(rooms[i].devices, devId, capId);
      FirstInDevicesFacts(rooms[i].devices, devId, capId);
      ThreadFlag(first, next, v, seen);
      var devs, flag', wrote', _ := SetInDevices(rooms[i].devices, devId, capId, v, flag);
      assert r[i := rooms[i].(devices := devs)] == spec[..i + 1] + rooms[i + 1..] by {
        SetStateInRoomsAt(rooms, devId, capId, v, i);
        SpliceStep(spec, rooms, i);
      }
      r := r[i := rooms[i].(devices := devs)];
      flag := flag';
      wrote := wrote || wrote';
      first := if first.Some? then first else next;
      seen := seen || SeenInDevices(rooms[i].devices, devId, capId, v);
      i := i + 1;
    }
    assert rooms[..i] == rooms && spec[..i] + rooms[i..] == spec;
  }

  /** One room more of the loop of `SetInRooms`, on values. */
  lemma RoomsStep(rooms: seq<LiveRoom>, i: nat, devId: string, capId: string, v: Value)
    requires i < |rooms|
    ensures FirstInRooms(rooms[..i + 1], devId, capId) ==
      var first := FirstInRooms(rooms[..i], devId, capId);
      if first.Some? then first else FirstInDevices(rooms[i].devices, devId, capId)
    ensures SeenInRooms(rooms[..i + 1], devId, capId, v) ==
      (SeenInRooms(rooms[..i], devId, capId, v) || SeenInDevices(rooms[i].devices, devId, capId, v))
  {
    assert rooms[..i + 1][..i] == rooms[..i];
  }

  /**
   * The change a non-presence event makes and what it reports: every
   * matching capability takes the value, and the change is emitted exactly
   * when the first match in traversal order held a different state.
   */
  function RoomEvent(rooms: seq<LiveRoom>, devId: string, capId: string, v: Value): (seq<LiveRoom>, Option<Emission>) {
    (SetStateInRooms(rooms, devId, capId, v),
     if Differs(FirstInRooms(rooms, devId, capId), v) then Some(Emission("device_chg", devId, capId, v)) else None)
  }

  /**
   * Repeating a non-presence event is silent and changes nothing more: after
   * the first delivery every match holds the value, so the second finds no
   * difference, emits nothing, and leaves the tree as it was.
   */
  lemma RepeatedEventIsSilent(rooms: seq<LiveRoom>, devId: string, capId: string, v: Value)
    ensures var (once, _) := RoomEvent(rooms, devId, capId, v);
      RoomEvent(once, devId, capId, v) == (once, None)
  {
    SetStateInRoomsSettles(rooms, devId, capId, v);
  }

  /**
   * An event for a device or capability the rooms do not hold changes
   * nothing and emits nothing.
   */
  lemma UnknownTargetIsIgnored(rooms: seq<LiveRoom>, devId: string, capId: string, v: Value)
    requires forall i, j :: 0 <= i < |rooms| && 0 <= j < |rooms[i].devices| ==> !HasMatch(rooms[i].devices[j], devId, capId)
    ensures RoomEvent(rooms, devId, capId, v) == (rooms, None)
  {
    FirstInRoomsFacts(rooms, devId, capId);
    var r := SetStateInRooms(rooms, devId, capId, v);
    forall i | 0 <= i < |rooms| ensures r[i] == rooms[i] {
      var ds := SetStateInDevices(rooms[i].devices, devId, capId, v);
      SetStateInRoomsAt(rooms, devId, capId, v, i);
      forall j | 0 <= j < |ds| ensures ds[j] == rooms[i].devices[j] {
        var d := rooms[i].devices[j];
        SetStateInDevicesAt(rooms[i].devices, devId, capId, v, j);
        if d.deviceId == devId {
          forall k | 0 <= k < |d.capabilities| ensures SetState(d.capabilities, capId, v)[k] == d.capabilities[k] {
            SetStateAt(d.capabilities, capId, v, k);
          }
          assert SetState(d.capabilities, capId, v) == d.capabilities;
        }
      }
      assert ds == rooms[i].devices;
    }
    assert r == rooms;
  }

  /**
   * A change that differs is reported: when the first match held a state
   * other than the value, the event emits `device_chg` with the device,
   * capability and value.
   */
  lemma ChangedStateIsEmitted(rooms: seq<LiveRoom>, devId: string, capId: string, v: Value)
    requires FirstInRooms(rooms, devId, capId).Some? && FirstInRooms(rooms, devId, capId).value != v
    ensures RoomEvent(rooms, devId, capId, v).1 == Some(Emission("device_chg", devId, capId, v))
    ensures FirstInRooms(RoomEvent(rooms, devId, capId, v).0, devId, capId) == Some(v)
  {
    SetStateInRoomsSettles(rooms, devId, capId, v);
  }

  /**
   * The view rebuilt from the store holds every state as the text of its
   * column (`readDevices` copies `c_state` as read). An event that reports the
   * same reading as a number therefore compares unequal to the stored text: it
   * is emitted and the row is rewritten although the reading did not change.
   * Only the next identical event is silent.
   */
  lemma StoredIntEventIsEmitted(rooms: seq<LiveRoom>, devId: string, capId: string, i: int)
    requires FirstInRooms(rooms, devId, capId) == Some(Text(StoredText(Int(i))))
    ensures RoomEvent(rooms, devId, capId, Int(i)).1 == Some(Emission("device_chg", devId, capId, Int(i)))
    ensures FirstInRooms(RoomEvent(rooms, devId, capId, Int(i)).0, devId, capId) == Some(Int(i))
    ensures var once := RoomEvent(rooms, devId, capId, Int(i)).0;
      RoomEvent(once, devId, capId, Int(i)) == (once, None)
  {
    ChangedStateIsEmitted(rooms, devId, capId, Int(i));
    RepeatedEventIsSilent(rooms, devId, capId, Int(i));
  }

  // ------------------------------------------------------------------ health

  /** The index of the first device `devId` in `devs`, or `|devs|` when there is none. */
  function FirstIndex(devs: seq<LiveDevice>, devId: string): (r: nat)
    ensures r <= |devs|
    ensures r < |devs| ==> devs[r].deviceId == devId
    ensures forall k :: 0 <= k < r ==> devs[k].deviceId != devId
  {
    if devs == [] then 0
    else if devs[0].deviceId == devId then 0
    else 1 + FirstIndex(devs[1..], devId)
  }

  /** The index of the first room holding a device `devId`, or `|rooms|` when there is none. */
  function FirstRoomWith(rooms: seq<LiveRoom>, devId: string): (r: nat)
    ensures r <= |rooms|
    ensures r < |rooms| ==> FirstIndex(rooms[r].devices, devId) < |rooms[r].devices|
    ensures forall k :: 0 <= k < r ==> FirstIndex(rooms[k].devices, devId) == |rooms[k].devices|
  {
    if rooms == [] then 0
    else if FirstIndex(rooms[0].devices, devId) < |rooms[0].devices| then 0
    else 1 + FirstRoomWith(rooms[1..], devId)
  }

  /**
   * The rooms after a health event: the first device `devId`, room by room,
   * takes the new health; nothing changes when no room holds the device.
   */
  function HealthAfter(rooms: seq<LiveRoom>, devId: string, health: string): seq<LiveRoom> {
    var i := FirstRoomWith(rooms, devId);
    if i == |rooms| then rooms
    else
      var devs := rooms[i].devices;
      var j := FirstIndex(devs, devId);
      rooms[i := rooms[i].(devices := devs[j := devs[j].(health := health)])]
  }

  /**
   * The room loops of `updateDeviceHealth`: the search stops at the first
   * device `devId`, which takes the new health.
   */
  method SetHealthInRooms(rooms: seq<LiveRoom>, devId: string, health: string)
    returns (r: seq<LiveRoom>, found: bool)
    ensures found <==> exists i, j :: 0 <= i < |rooms| && 0 <= j < |rooms[i].devices| && rooms[i].devices[j].deviceId == devId
    ensures r == HealthAfter(rooms, devId, health)
  {
    r, found := rooms, false;
    var i := 0;
    while i < |rooms| && !found
      invariant 0 <= i <= |rooms|
      invariant !found ==> r == rooms && forall k :: 0 <= k < i ==> FirstIndex(rooms[k].devices, devId) == |rooms[k].devices|
      invariant found ==> r == HealthAfter(rooms, devId, health) && FirstRoomWith(rooms, devId) < |rooms|
    {
      var devs := rooms[i].devices;
      var j := 0;
      while j < |devs| && !found
        invariant 0 <= j <= |devs|
        invariant !found ==> r == rooms && forall k :: 0 <= k < j ==> devs[k].deviceId != devId
        invariant found ==> r == HealthAfter(rooms, devId, health) && FirstRoomWith(rooms, devId) < |rooms|
      {
        if devs[j].deviceId == devId {
          FirstIndexIs(devs, devId, j);
          FirstRoomWithIs(rooms, devId, i);
          r := rooms[i := rooms[i].(devices := devs[j := devs[j].(health := health)])];
          found := true;
        }
        j := j + 1;
      }
      if !found {
        FirstIndexIs(devs, devId, |devs|);
      }
      i := i + 1;
    }
    if found {
      var a := FirstRoomWith(rooms, devId);
      assert rooms[a].devices[FirstIndex(rooms[a].devices, devId)].deviceId == devId;
    } else {
      forall a, b | 0 <= a < |rooms| && 0 <= b < |rooms[a].devices| ensures rooms[a].devices[b].deviceId != devId {
        assert FirstIndex(rooms[a].devices, devId) == |rooms[a].devices|;
      }
    }
  }

  lemma {:induction false} FirstIndexIs(devs: seq<LiveDevice>, devId: string, j: nat)
    requires j <= |devs|
    requires j < |devs| ==> devs[j].deviceId == devId
    requires forall k :: 0 <= k < j ==> devs[k].deviceId != devId
    ensures FirstIndex(devs, devId) == j
  {
    if devs != [] && j > 0 {
      FirstIndexIs(devs[1..], devId, j - 1);
    }
  }

  lemma {:induction false} FirstRoomWithIs(rooms: seq<LiveRoom>, devId: string, i: nat)
    requires i <= |rooms|
    requires i < |rooms| ==> FirstIndex(rooms[i].devices, devId) < |rooms[i].devices|
    requires forall k :: 0 <= k < i ==> FirstIndex(rooms[k].devices, devId) == |rooms[k].devices|
    ensures FirstRoomWith(rooms, devId) == i
  {
    if rooms != [] && i > 0 {
      FirstRoomWithIs(rooms[1..], devId, i - 1);
    }
  }

  /**
   * A health event changes exactly one device when some room holds the
   * device: the first one, whose health becomes the new value, every other
   * field and every other device staying as they were.
   */
  lemma HealthEventTouchesFirstMatchOnly(rooms: seq<LiveRoom>, devId: string, health: string, i: nat, j: nat)
    requires i < |rooms| && j < |rooms[i].devices| && rooms[i].devices[j].deviceId == devId
    requires forall k :: 0 <= k < i ==> forall d :: d in rooms[k].devices ==> d.deviceId != devId
    requires forall k :: 0 <= k < j ==> rooms[i].devices[k].deviceId != devId
    ensures var r := HealthAfter(rooms, devId, health);
      && |r| == |rooms|
      && r[i].devices[j] == rooms[i].devices[j].(health := health)
      && (forall a :: 0 <= a < |rooms| && a != i ==> r[a] == rooms[a])
      && (forall b :: 0 <= b < |rooms[i].devices| && b != j ==> r[i].devices[b] == rooms[i].devices[b])
      && r[i].roomId == rooms[i].roomId && |r[i].devices| == |rooms[i].devices|
  {
    FirstIndexIs(rooms[i].devices, devId, j);
    forall k | 0 <= k < i ensures FirstIndex(rooms[k].devices, devId) == |rooms[k].devices| {
      var devs := rooms[k].devices;
      assert forall b :: 0 <= b < |devs| ==> devs[b] in devs;
      FirstIndexIs(devs, devId, |devs|);
    }
    FirstRoomWithIs(rooms, devId, i);
  }
}
