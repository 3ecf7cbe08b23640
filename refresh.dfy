/**
 * The bulk refreshes of `readData`: `loadAllDevicesStatus` reads every shown
 * device's status through the allow-list into the tree and the capability
 * table, and `loadAllDevicesHealth` copies every shown device's health into
 * the tree and the device table. A per-device fetch is a function from the
 * device id to the parsed reply, None standing for a non-200 answer.
 */
module Refresh {
  import opened Wrappers
  import opened Values
  import opened Capabilities
  import opened Store
  import opened LiveView

  // ------------------------------------------------------------------ status

  /**
   * A capability after a status read that gave it `v`: the state is the
   * reported value; `updated` is stamped only where `stamp` holds (the
   * presence branch stamps, the room branch does not).
   */
  function Refreshed(c: LiveCap, v: Option<Value>, now: string, stamp: bool): LiveCap {
    match v
    case None => c
    case Some(x) => c.(state := x, updated := if stamp then now else c.updated)
  }

  /** The capabilities of one device after its status reply was read through `pairs`. */
  function RefreshCapsWith(caps: seq<LiveCap>, pairs: seq<(string, string)>, reply: StatusReply, now: string, stamp: bool): (r: seq<LiveCap>)
    ensures |r| == |caps|
  {
    if caps == [] then []
    else
      var c := caps[|caps| - 1];
      RefreshCapsWith(caps[..|caps| - 1], pairs, reply, now, stamp) + [Refreshed(c, PickStatus(pairs, reply, c.id), now, stamp)]
  }

  /** Each capability is refreshed on its own, with the value the pairs pick for its id. */
  lemma {:induction false} RefreshCapsAt(caps: seq<LiveCap>, pairs: seq<(string, string)>, reply: StatusReply, now: string, stamp: bool)
    ensures var r := RefreshCapsWith(caps, pairs, reply, now, stamp);
      forall k :: 0 <= k < |caps| ==> r[k] == Refreshed(caps[k], PickStatus(pairs, reply, caps[k].id), now, stamp)
  {
    if caps != [] {
      RefreshCapsAt(caps[..|caps| - 1], pairs, reply, now, stamp);
    }
  }

  function RefreshCaps(caps: seq<LiveCap>, reply: StatusReply, now: string, stamp: bool): seq<LiveCap> {
    RefreshCapsWith(caps, DevList, reply, now, stamp)
  }

  function CapIds(caps: seq<LiveCap>): set<string> {
    set k | 0 <= k < |caps| :: caps[k].id
  }

  /** `update capability set state=?, updated=? where device_id=? and capability_id=?`. */
  function WriteStatus(ct: Table<CapKey, CapabilityRow>, k: CapKey, v: Value, now: string): (t': Table<CapKey, CapabilityRow>)
    ensures ValidTable(ct) ==> ValidTable(t')
    ensures t'.rows.Keys == ct.rows.Keys
  {
    if k in ct.rows then Replace(ct, k, ct.rows[k].(state := StoredText(v), updated := now)) else ct
  }

  /**
   * The capability table after the status reply of device `deviceId`, shown
   * with the capabilities `ids`, was read through `pairs`: each such row that
   * got a value stores it as text and is stamped.
   */
  function StatusRowsWith(ct: Table<CapKey, CapabilityRow>, deviceId: string, ids: set<string>, pairs: seq<(string, string)>, reply: StatusReply, now: string)
    : Table<CapKey, CapabilityRow>
  {
    Table(map k | k in ct.rows ::
            if k.deviceId == deviceId && k.capabilityId in ids && PickStatus(pairs, reply, k.capabilityId).Some?
            then ct.rows[k].(state := StoredText(PickStatus(pairs, reply, k.capabilityId).value), updated := now)
            else ct.rows[k],
          ct.order)
  }

  function StatusRows(ct: Table<CapKey, CapabilityRow>, deviceId: string, caps: seq<LiveCap>, reply: StatusReply, now: string)
    : Table<CapKey, CapabilityRow>
  {
    StatusRowsWith(ct, deviceId, CapIds(caps), DevList, reply, now)
  }

  /** The status read of one device got a value for one of its capabilities. */
  predicate StatusHit(caps: seq<LiveCap>, reply: StatusReply) {
    exists k :: 0 <= k < |caps| && StatusValue(reply, caps[k].id).Some?
  }

  lemma StatusRowsStep(ct: Table<CapKey, CapabilityRow>, deviceId: string, ids: set<string>, pairs: seq<(string, string)>, i: nat, reply: StatusReply, now: string)
    requires i < |pairs|
    ensures StatusRowsWith(ct, deviceId, ids, pairs[..i + 1], reply, now) ==
      if pairs[i].0 in ids && Reported(reply, pairs[i]).Some?
      then WriteStatus(StatusRowsWith(ct, deviceId, ids, pairs[..i], reply, now), CapKey(deviceId, pairs[i].0), Reported(reply, pairs[i]).value, now)
      else StatusRowsWith(ct, deviceId, ids, pairs[..i], reply, now)
  {
    assert pairs[..i + 1][..i] == pairs[..i];
  }

  /** The writes of the status loop, pair by pair: each reported pair naming a shown capability writes its row. */
  function StatusWrites(ct: Table<CapKey, CapabilityRow>, deviceId: string, ids: set<string>, pairs: seq<(string, string)>, reply: StatusReply, now: string)
    : Table<CapKey, CapabilityRow>
  {
    if pairs == [] then ct
    else
      var t := StatusWrites(ct, deviceId, ids, pairs[..|pairs| - 1], reply, now);
      var p := pairs[|pairs| - 1];
      if p.0 in ids && Reported(reply, p).Some? then WriteStatus(t, CapKey(deviceId, p.0), Reported(reply, p).value, now) else t
  }

  /** Writing pair by pair gives the table where each row holds the value the whole list picks for it. */
  lemma {:induction false} StatusWritesMeansRows(ct: Table<CapKey, CapabilityRow>, deviceId: string, ids: set<string>, pairs: seq<(string, string)>, reply: StatusReply, now: string)
    ensures StatusWrites(ct, deviceId, ids, pairs, reply, now) == StatusRowsWith(ct, deviceId, ids, pairs, reply, now)
  {
    if pairs == [] {
      assert StatusRowsWith(ct, deviceId, ids, pairs, reply, now).rows == ct.rows;
    } else {
      var i := |pairs| - 1;
      StatusWritesMeansRows(ct, deviceId, ids, pairs[..i], reply, now);
      StatusRowsStep(ct, deviceId, ids, pairs, i, reply, now);
      assert pairs[..i + 1] == pairs;
    }
  }

  /**
   * The inner loop for one allow-list pair whose attribute the reply reports
   * with value `val`: every capability of the device named by the pair takes
   * the value, and its row is written.
   */
  method ApplyPair(db: Database, deviceId: string, caps: seq<LiveCap>, capId: string, val: Value, now: string, stamp: bool)
    returns (r: seq<LiveCap>, matched: bool)
    modifies db`capabilities
    ensures matched == (capId in CapIds(caps))
    ensures |r| == |caps|
    ensures forall k :: 0 <= k < |caps| ==> r[k] == if caps[k].id == capId then Refreshed(caps[k], Some(val), now, stamp) else caps[k]
    ensures db.capabilities == if capId in CapIds(caps) then WriteStatus(old(db.capabilities), CapKey(deviceId, capId), val, now) else old(db.capabilities)
  {
    r, matched := caps, false;
    var j := 0;
    while j < |caps|
      invariant 0 <= j <= |caps| && |r| == |caps|
      invariant matched == (capId in CapIds(caps[..j]))
      invariant forall k :: 0 <= k < |caps| ==> r[k] == if k < j && caps[k].id == capId then Refreshed(caps[k], Some(val), now, stamp) else caps[k]
      invariant db.capabilities == if capId in CapIds(caps[..j]) then WriteStatus(old(db.capabilities), CapKey(deviceId, capId), val, now) else old(db.capabilities)
    {
      assert CapIds(caps[..j + 1]) == CapIds(caps[..j]) + {caps[j].id} by {
        assert forall k :: 0 <= k < j ==> caps[..j + 1][k] == caps[..j][k];
      }
      if r[j].id == capId {
        r := r[j := Refreshed(r[j], Some(val), now, stamp)];
        matched := true;
        db.capabilities := WriteStatus(db.capabilities, CapKey(deviceId, capId), val, now);
        WriteStatusTwice(old(db.capabilities), CapKey(deviceId, capId), val, now);
      }
      j := j + 1;
    }
    assert caps[..j] == caps;
  }

  lemma WriteStatusTwice(ct: Table<CapKey, CapabilityRow>, k: CapKey, v: Value, now: string)
    ensures WriteStatus(WriteStatus(ct, k, v, now), k, v, now) == WriteStatus(ct, k, v, now)
  {
  }

  /**
   * The status read of one device: the allow-list pairs in order, each
   * reported attribute applied to the capabilities it names. `hit` is the
   * room branch's success flag for this device.
   */
  method RefreshDevice(db: Database, deviceId: string, caps: seq<LiveCap>, reply: StatusReply, now: string, stamp: bool)
    returns (r: seq<LiveCap>, hit: bool)
    modifies db`capabilities
    ensures r == RefreshCaps(caps, reply, now, stamp)
    ensures db.capabilities == StatusRows(old(db.capabilities), deviceId, caps, reply, now)
    ensures hit == StatusHit(caps, reply)
  {
    r, hit := ReadThroughPairs(db, deviceId, caps, DevList, reply, now, stamp);
    HitWithIsPick(caps, DevList, reply);
  }

  /** The loop of `RefreshDevice` over any list of (capability, attribute) pairs. */
  method ReadThroughPairs(db: Database, deviceId: string, caps: seq<LiveCap>, pairs: seq<(string, string)>, reply: StatusReply, now: string, stamp: bool)
    returns (r: seq<LiveCap>, hit: bool)
    modifies db`capabilities
    ensures r == RefreshCapsWith(caps, pairs, reply, now, stamp)
    ensures db.capabilities == StatusRowsWith(old(db.capabilities), deviceId, CapIds(caps), pairs, reply, now)
    ensures hit == HitWith(caps, pairs, reply)
  {
    r, hit := caps, false;
    RefreshCapsNoPairs(caps, reply, now, stamp);
    var i := 0;
    while i < |pairs|
      invariant 0 <= i <= |pairs|
      invariant r == RefreshCapsWith(caps, pairs[..i], reply, now, stamp)
      invariant db.capabilities == StatusWrites(old(db.capabilities), deviceId, CapIds(caps), pairs[..i], reply, now)
      invariant hit == HitWith(caps, pairs[..i], reply)
    {
      assert pairs[..i + 1][..i] == pairs[..i];
      var r', matched := ReadPair(db, deviceId, caps, pairs, i, r, reply, now, stamp);
      r, hit := r', hit || matched;
      i := i + 1;
    }
    assert pairs[..i] == pairs;
    StatusWritesMeansRows(old(db.capabilities), deviceId, CapIds(caps), pairs, reply, now);
  }

  /** One pass of the loop of `ReadThroughPairs`: pair `i` applied to the capabilities read so far. */
  method ReadPair(db: Database, deviceId: string, caps: seq<LiveCap>, pairs: seq<(string, string)>, i: nat, r: seq<LiveCap>, reply: StatusReply, now: string, stamp: bool)
    returns (r': seq<LiveCap>, matched: bool)
    requires i < |pairs| && r == RefreshCapsWith(caps, pairs[..i], reply, now, stamp)
    modifies db`capabilities
    ensures r' == RefreshCapsWith(caps, pairs[..i + 1], reply, now, stamp)
    ensures matched == (Reported(reply, pairs[i]).Some? && pairs[i].0 in CapIds(caps))
    ensures db.capabilities ==
      if matched then WriteStatus(old(db.capabilities), CapKey(deviceId, pairs[i].0), Reported(reply, pairs[i]).value, now)
      else old(db.capabilities)
  {
    var pair := pairs[i];
    var reported := Reported(reply, pair);
    RefreshPairIds(caps, pairs[..i], reply, now, stamp);
    r', matched := r, false;
    if reported.Some? {
      r', matched := ApplyPair(db, deviceId, r, pair.0, reported.value, now, stamp);
    }
    RefreshPairStep(caps, pairs, i, reply, now, stamp, r');
  }

  /**
   * One allow-list pair on values: applying it to the capabilities read
   * through the pairs before it gives those read through one pair more.
   */
  lemma RefreshPairStep(caps: seq<LiveCap>, pairs: seq<(string, string)>, i: nat, reply: StatusReply, now: string, stamp: bool, r': seq<LiveCap>)
    requires i < |pairs| && |r'| == |caps|
    requires var p := RefreshCapsWith(caps, pairs[..i], reply, now, stamp);
      forall k :: 0 <= k < |caps| ==>
        r'[k] == (if Reported(reply, pairs[i]).Some? && p[k].id == pairs[i].0 then Refreshed(p[k], Reported(reply, pairs[i]), now, stamp) else p[k])
    ensures r' == RefreshCapsWith(caps, pairs[..i + 1], reply, now, stamp)
    ensures HitWith(caps, pairs[..i + 1], reply) == (HitWith(caps, pairs[..i], reply) || (Reported(reply, pairs[i]).Some? && pairs[i].0 in CapIds(caps)))
  {
    var p := RefreshCapsWith(caps, pairs[..i], reply, now, stamp);
    var q := RefreshCapsWith(caps, pairs[..i + 1], reply, now, stamp);
    assert pairs[..i + 1][..i] == pairs[..i];
    RefreshCapsAt(caps, pairs[..i], reply, now, stamp);
    RefreshCapsAt(caps, pairs[..i + 1], reply, now, stamp);
    forall k | 0 <= k < |caps| ensures r'[k] == q[k] {
      PickStep(pairs, i, reply, caps[k].id);
    }
  }

  /** Reading a status changes no capability's id. */
  lemma RefreshPairIds(caps: seq<LiveCap>, pairs: seq<(string, string)>, reply: StatusReply, now: string, stamp: bool)
    ensures CapIds(RefreshCapsWith(caps, pairs, reply, now, stamp)) == CapIds(caps)
  {
    var p := RefreshCapsWith(caps, pairs, reply, now, stamp);
    RefreshCapsAt(caps, pairs, reply, now, stamp);
    assert forall k :: 0 <= k < |caps| ==> p[k].id == caps[k].id;
  }

  /** Before any pair is read, no capability has changed. */
  lemma RefreshCapsNoPairs(caps: seq<LiveCap>, reply: StatusReply, now: string, stamp: bool)
    ensures RefreshCapsWith(caps, [], reply, now, stamp) == caps
  {
    RefreshCapsAt(caps, [], reply, now, stamp);
  }

  /** Some pair of `pairs` whose attribute the reply reports names a shown capability. */
  function HitWith(caps: seq<LiveCap>, pairs: seq<(string, string)>, reply: StatusReply): bool {
    if pairs == [] then false
    else
      var p := pairs[|pairs| - 1];
      HitWith(caps, pairs[..|pairs| - 1], reply) || (Reported(reply, p).Some? && p.0 in CapIds(caps))
  }

  lemma {:induction false} HitWithIsPick(caps: seq<LiveCap>, pairs: seq<(string, string)>, reply: StatusReply)
    ensures HitWith(caps, pairs, reply) <==> exists k :: 0 <= k < |caps| && PickStatus(pairs, reply, caps[k].id).Some?
  {
    if pairs != [] {
      var init, p := pairs[..|pairs| - 1], pairs[|pairs| - 1];
      HitWithIsPick(caps, init, reply);
      if Reported(reply, p).Some? && p.0 in CapIds(caps) {
        var k :| 0 <= k < |caps| && caps[k].id == p.0;
        assert PickStatus(pairs, reply, caps[k].id).Some?;
      }
      if HitWith(caps, init, reply) {
        var k :| 0 <= k < |caps| && PickStatus(init, reply, caps[k].id).Some?;
        assert PickStatus(pairs, reply, caps[k].id).Some?;
      }
    }
  }

  lemma PickStep(pairs: seq<(string, string)>, i: nat, reply: StatusReply, cid: string)
    requires i < |pairs|
    ensures PickStatus(pairs[..i + 1], reply, cid) ==
      if pairs[i].0 == cid && Reported(reply, pairs[i]).Some? then Reported(reply, pairs[i]) else PickStatus(pairs[..i], reply, cid)
  {
    assert pairs[..i + 1][..i] == pairs[..i];
  }

  /** A device after its status read: refreshed when the fetch answered, unchanged otherwise. */
  function AfterStatus(d: LiveDevice, fetch: string -> Option<StatusReply>, now: string, stamp: bool): LiveDevice {
    if fetch(d.deviceId).Some? then d.(capabilities := RefreshCaps(d.capabilities, fetch(d.deviceId).value, now, stamp)) else d
  }

  /** The devices of a list after each one with a status reply was refreshed. */
  function RefreshDevices(devs: seq<LiveDevice>, fetch: string -> Option<StatusReply>, now: string, stamp: bool): (r: seq<LiveDevice>)
    ensures |r| == |devs|
  {
    if devs == [] then []
    else RefreshDevices(devs[..|devs| - 1], fetch, now, stamp) + [AfterStatus(devs[|devs| - 1], fetch, now, stamp)]
  }

  /** Each device of the list is refreshed on its own. */
  lemma {:induction false} RefreshDevicesAt(devs: seq<LiveDevice>, fetch: string -> Option<StatusReply>, now: string, stamp: bool, i: nat)
    requires i < |devs|
    ensures RefreshDevices(devs, fetch, now, stamp)[i] == AfterStatus(devs[i], fetch, now, stamp)
  {
    if i < |devs| - 1 {
      RefreshDevicesAt(devs[..|devs| - 1], fetch, now, stamp, i);
    }
  }

  /** The capability table after the devices of a list were refreshed in order. */
  function StatusRowsAll(ct: Table<CapKey, CapabilityRow>, devs: seq<LiveDevice>, fetch: string -> Option<StatusReply>, now: string)
    : Table<CapKey, CapabilityRow>
  {
    if devs == [] then ct
    else
      var d := devs[|devs| - 1];
      var t1 := StatusRowsAll(ct, devs[..|devs| - 1], fetch, now);
      StatusStep(t1, d, fetch, now)
  }

  predicate DeviceHit(d: LiveDevice, fetch: string -> Option<StatusReply>) {
    fetch(d.deviceId).Some? && StatusHit(d.capabilities, fetch(d.deviceId).value)
  }

  /** The room branch's success flag after a list of devices: some device's status read hit. */
  function AnyDeviceHit(devs: seq<LiveDevice>, fetch: string -> Option<StatusReply>): bool {
    if devs == [] then false else AnyDeviceHit(devs[..|devs| - 1], fetch) || DeviceHit(devs[|devs| - 1], fetch)
  }

  lemma {:induction false} AnyDeviceHitMeans(devs: seq<LiveDevice>, fetch: string -> Option<StatusReply>)
    ensures AnyDeviceHit(devs, fetch) <==> exists i :: 0 <= i < |devs| && DeviceHit(devs[i], fetch)
  {
    if devs != [] {
      var init := devs[..|devs| - 1];
      AnyDeviceHitMeans(init, fetch);
      if AnyDeviceHit(init, fetch) {
        var i :| 0 <= i < |init| && DeviceHit(init[i], fetch);
        assert devs[i] == init[i];
      }
      if exists i :: 0 <= i < |devs| && DeviceHit(devs[i], fetch) {
        var i :| 0 <= i < |devs| && DeviceHit(devs[i], fetch);
        if i < |init| { assert devs[i] == init[i]; }
      }
    }
  }

  lemma StatusRowsAllStep(ct: Table<CapKey, CapabilityRow>, devs: seq<LiveDevice>, i: nat, fetch: string -> Option<StatusReply>, now: string)
    requires i < |devs|
    ensures StatusRowsAll(ct, devs[..i + 1], fetch, now) == StatusStep(StatusRowsAll(ct, devs[..i], fetch, now), devs[i], fetch, now)
  {
    assert devs[..i + 1][..i] == devs[..i];
  }

  /** The status table after one device of the list was read. */
  function StatusStep(ct: Table<CapKey, CapabilityRow>, d: LiveDevice, fetch: string -> Option<StatusReply>, now: string)
    : Table<CapKey, CapabilityRow>
  {
    if fetch(d.deviceId).Some? then StatusRows(ct, d.deviceId, d.capabilities, fetch(d.deviceId).value, now) else ct
  }

  /** One device of the status loop: fetch its status and, when it answered, refresh it. */
  method RefreshEntry(db: Database, d: LiveDevice, fetch: string -> Option<StatusReply>, now: string, stamp: bool)
    returns (r: LiveDevice, hit: bool)
    modifies db`capabilities
    ensures r == AfterStatus(d, fetch, now, stamp)
    ensures db.capabilities == StatusStep(old(db.capabilities), d, fetch, now)
    ensures hit == DeviceHit(d, fetch)
  {
    r, hit := d, false;
    var reply := fetch(d.deviceId);
    if reply.Some? {
      var caps;
      caps, hit := RefreshDevice(db, d.deviceId, d.capabilities, reply.value, now, stamp);
      r := d.(capabilities := caps);
    }
  }

  /** The status loop over one list of devices. */
  method RefreshList(db: Database, devs: seq<LiveDevice>, fetch: string -> Option<StatusReply>, now: string, stamp: bool)
    returns (r: seq<LiveDevice>, hit: bool)
    modifies db`capabilities
    ensures r == RefreshDevices(devs, fetch, now, stamp)
    ensures db.capabilities == StatusRowsAll(old(db.capabilities), devs, fetch, now)
    ensures hit == AnyDeviceHit(devs, fetch)
  {
    ghost var spec := RefreshDevices(devs, fetch, now, stamp);
    r, hit := devs, false;
    assert spec[..0] + devs[0..] == devs;
    var i := 0;
    while i < |devs|
      invariant 0 <= i <= |devs|
      invariant r == spec[..i] + devs[i..]
      invariant db.capabilities == StatusRowsAll(old(db.capabilities), devs[..i], fetch, now)
      invariant hit == AnyDeviceHit(devs[..i], fetch)
    {
      StatusRowsAllStep(old(db.capabilities), devs, i, fetch, now);
      AnyDeviceHitStep(devs, i, fetch);
      var d, h := RefreshEntry(db, devs[i], fetch, now, stamp);
      assert r[i := d] == spec[..i + 1] + devs[i + 1..] by {
        RefreshDevicesAt(devs, fetch, now, stamp, i);
        SpliceStep(spec, devs, i);
      }
      r := r[i := d];
      hit := hit || h;
      i := i + 1;
    }
    assert devs[..i] == devs && spec[..i] + devs[i..] == spec;
  }

  lemma AnyDeviceHitStep(devs: seq<LiveDevice>, i: nat, fetch: string -> Option<StatusReply>)
    requires i < |devs|
    ensures AnyDeviceHit(devs[..i + 1], fetch) == (AnyDeviceHit(devs[..i], fetch) || DeviceHit(devs[i], fetch))
  {
    assert devs[..i + 1][..i] == devs[..i];
  }

  /**
   * A status read goes through the allow-list: a capability outside it keeps
   * its state; one on it whose attribute the reply reports takes the reported
   * value; `updated` is stamped only when `stamp` holds.
   */
  lemma RefreshReadsAllowList(caps: seq<LiveCap>, reply: StatusReply, now: string, stamp: bool)
    ensures var r := RefreshCaps(caps, reply, now, stamp);
      && |r| == |caps|
      && (forall k :: 0 <= k < |caps| && caps[k].id !in CapList ==> r[k] == caps[k])
      && (forall k, p :: 0 <= k < |caps| && 0 <= p < |DevList| && DevList[p].0 == caps[k].id && Reported(reply, DevList[p]).Some? ==>
            r[k].state == Reported(reply, DevList[p]).value && r[k].id == caps[k].id && r[k].sortSeq == caps[k].sortSeq)
      && (!stamp ==> forall k :: 0 <= k < |caps| ==> r[k].updated == caps[k].updated)
      && (stamp ==> forall k :: 0 <= k < |caps| && StatusValue(reply, caps[k].id).Some? ==> r[k].updated == now)
  {
    RefreshCapsAt(caps, DevList, reply, now, stamp);
    forall k | 0 <= k < |caps| {
      StatusValueReadsAllowList(reply, caps[k].id);
    }
  }

  /**
   * The tree and the store agree after a device's status read: every shown
   * capability that got a value holds it in the tree, and its row holds the
   * same value as text, stamped.
   */
  lemma StatusRowsMatchTree(ct: Table<CapKey, CapabilityRow>, deviceId: string, caps: seq<LiveCap>, reply: StatusReply, now: string, stamp: bool)
    ensures var t := StatusRows(ct, deviceId, caps, reply, now);
      var r := RefreshCaps(caps, reply, now, stamp);
      && t.rows.Keys == ct.rows.Keys && t.order == ct.order
      && (forall k :: 0 <= k < |caps| && StatusValue(reply, caps[k].id).Some? && CapKey(deviceId, caps[k].id) in ct.rows ==>
            && r[k].state == StatusValue(reply, caps[k].id).value
            && t.rows[CapKey(deviceId, caps[k].id)].state == StoredText(r[k].state)
            && t.rows[CapKey(deviceId, caps[k].id)].updated == now)
      && (forall key :: key in ct.rows && (key.deviceId != deviceId || key.capabilityId !in CapIds(caps)) ==> t.rows[key] == ct.rows[key])
  {
    var t := StatusRows(ct, deviceId, caps, reply, now);
    RefreshCapsAt(caps, DevList, reply, now, stamp);
    forall k | 0 <= k < |caps| ensures caps[k].id in CapIds(caps) { }
  }

  /** The status table keeps its rows and their order through a status refresh. */
  lemma {:induction false} StatusRowsAllKeys(ct: Table<CapKey, CapabilityRow>, devs: seq<LiveDevice>, fetch: string -> Option<StatusReply>, now: string)
    ensures StatusRowsAll(ct, devs, fetch, now).rows.Keys == ct.rows.Keys
    ensures StatusRowsAll(ct, devs, fetch, now).order == ct.order
  {
    if devs != [] {
      var d := devs[|devs| - 1];
      StatusRowsAllKeys(ct, devs[..|devs| - 1], fetch, now);
      if fetch(d.deviceId).Some? {
        StatusRowsMatchTree(StatusRowsAll(ct, devs[..|devs| - 1], fetch, now), d.deviceId, d.capabilities, fetch(d.deviceId).value, now, false);
      }
    }
  }

  // ------------------------------------------------------- status, room by room

  /** The rooms after the room branch of the status refresh, which does not stamp the tree. */
  function RefreshRooms(rooms: seq<LiveRoom>, fetch: string -> Option<StatusReply>, now: string): (r: seq<LiveRoom>)
    ensures |r| == |rooms|
  {
    if rooms == [] then []
    else RefreshRooms(rooms[..|rooms| - 1], fetch, now)
           + [rooms[|rooms| - 1].(devices := RefreshDevices(rooms[|rooms| - 1].devices, fetch, now, false))]
  }

  lemma {:induction false} RefreshRoomsAt(rooms: seq<LiveRoom>, fetch: string -> Option<StatusReply>, now: string, i: nat)
    requires i < |rooms|
    ensures RefreshRooms(rooms, fetch, now)[i] == rooms[i].(devices := RefreshDevices(rooms[i].devices, fetch, now, false))
  {
    if i < |rooms| - 1 {
      RefreshRoomsAt(rooms[..|rooms| - 1], fetch, now, i);
    }
  }

  function StatusRowsRooms(ct: Table<CapKey, CapabilityRow>, rooms: seq<LiveRoom>, fetch: string -> Option<StatusReply>, now: string)
    : Table<CapKey, CapabilityRow>
  {
    if rooms == [] then ct
    else StatusRowsAll(StatusRowsRooms(ct, rooms[..|rooms| - 1], fetch, now), rooms[|rooms| - 1].devices, fetch, now)
  }

  /** The room branch's success flag: some device of some room got a value for a shown capability. */
  function AnyRoomHit(rooms: seq<LiveRoom>, fetch: string -> Option<StatusReply>): bool {
    if rooms == [] then false else AnyRoomHit(rooms[..|rooms| - 1], fetch) || AnyDeviceHit(rooms[|rooms| - 1].devices, fetch)
  }

  lemma {:induction false} StatusRowsRoomsKeys(ct: Table<CapKey, CapabilityRow>, rooms: seq<LiveRoom>, fetch: string -> Option<StatusReply>, now: string)
    ensures StatusRowsRooms(ct, rooms, fetch, now).rows.Keys == ct.rows.Keys
    ensures StatusRowsRooms(ct, rooms, fetch, now).order == ct.order
  {
    if rooms != [] {
      StatusRowsRoomsKeys(ct, rooms[..|rooms| - 1], fetch, now);
      StatusRowsAllKeys(StatusRowsRooms(ct, rooms[..|rooms| - 1], fetch, now), rooms[|rooms| - 1].devices, fetch, now);
    }
  }

  /** The room loop of the status refresh. */
  method RefreshRoomList(db: Database, rooms: seq<LiveRoom>, fetch: string -> Option<StatusReply>, now: string)
    returns (r: seq<LiveRoom>, hit: bool)
    modifies db`capabilities
    ensures r == RefreshRooms(rooms, fetch, now)
    ensures db.capabilities == StatusRowsRooms(old(db.capabilities), rooms, fetch, now)
    ensures hit == AnyRoomHit(rooms, fetch)
  {
    ghost var spec := RefreshRooms(rooms, fetch, now);
    r, hit := rooms, false;
    assert spec[..0] + rooms[0..] == rooms;
    var i := 0;
    while i < |rooms|
      invariant 0 <= i <= |rooms|
      invariant r == spec[..i] + rooms[i..]
      invariant db.capabilities == StatusRowsRooms(old(db.capabilities), rooms[..i], fetch, now)
      invariant hit == AnyRoomHit(rooms[..i], fetch)
    {
      assert rooms[..i + 1][..i] == rooms[..i];
      var devs, h := RefreshList(db, rooms[i].devices, fetch, now, false);
      assert r[i := rooms[i].(devices := devs)] == spec[..i + 1] + rooms[i + 1..] by {
        RefreshRoomsAt(rooms, fetch, now, i);
        SpliceStep(spec, rooms, i);
      }
      r := r[i := rooms[i].(devices := devs)];
      hit := hit || h;
      i := i + 1;
    }
    assert rooms[..i] == rooms && spec[..i] + rooms[i..] == spec;
  }

  // ------------------------------------------------------------------ health

  /** A device after its health read: the answered health, or unchanged. */
  function AfterHealth(d: LiveDevice, fetch: string -> Option<string>): LiveDevice {
    if fetch(d.deviceId).Some? then d.(health := fetch(d.deviceId).value) else d
  }

  /** The devices of a list after each one whose health fetch answered took that health. */
  function HealthDevices(devs: seq<LiveDevice>, fetch: string -> Option<string>): (r: seq<LiveDevice>)
    ensures |r| == |devs|
  {
    if devs == [] then []
    else HealthDevices(devs[..|devs| - 1], fetch) + [AfterHealth(devs[|devs| - 1], fetch)]
  }

  lemma {:induction false} HealthDevicesAt(devs: seq<LiveDevice>, fetch: string -> Option<string>, i: nat)
    requires i < |devs|
    ensures HealthDevices(devs, fetch)[i] == AfterHealth(devs[i], fetch)
  {
    if i < |devs| - 1 {
      HealthDevicesAt(devs[..|devs| - 1], fetch, i);
    }
  }

  /** `update device set health=? where device_id=?`. */
  function WriteHealth(t: Table<string, DeviceRow>, id: string, health: string): (t': Table<string, DeviceRow>)
    ensures ValidTable(t) ==> ValidTable(t')
    ensures t'.rows.Keys == t.rows.Keys
  {
    if id in t.rows then Replace(t, id, t.rows[id].(health := health)) else t
  }

  function HealthRows(t: Table<string, DeviceRow>, devs: seq<LiveDevice>, fetch: string -> Option<string>): Table<string, DeviceRow> {
    if devs == [] then t
    else
      var d := devs[|devs| - 1];
      var t1 := HealthRows(t, devs[..|devs| - 1], fetch);
      if fetch(d.deviceId).Some? then WriteHealth(t1, d.deviceId, fetch(d.deviceId).value) else t1
  }

  /** Some health fetch for the devices of a list answered. */
  function AnyAnswered(devs: seq<LiveDevice>, fetch: string -> Option<string>): bool {
    if devs == [] then false else AnyAnswered(devs[..|devs| - 1], fetch) || fetch(devs[|devs| - 1].deviceId).Some?
  }

  lemma {:induction false} AnyAnsweredMeans(devs: seq<LiveDevice>, fetch: string -> Option<string>)
    ensures AnyAnswered(devs, fetch) <==> exists i :: 0 <= i < |devs| && fetch(devs[i].deviceId).Some?
  {
    if devs != [] {
      var init := devs[..|devs| - 1];
      AnyAnsweredMeans(init, fetch);
      if AnyAnswered(init, fetch) {
        var i :| 0 <= i < |init| && fetch(init[i].deviceId).Some?;
        assert devs[i] == init[i];
      }
      if exists i :: 0 <= i < |devs| && fetch(devs[i].deviceId).Some? {
        var i :| 0 <= i < |devs| && fetch(devs[i].deviceId).Some?;
        if i < |init| { assert devs[i] == init[i]; }
      }
    }
  }

  lemma HealthRowsStep(t: Table<string, DeviceRow>, devs: seq<LiveDevice>, i: nat, fetch: string -> Option<string>)
    requires i < |devs|
    ensures HealthRows(t, devs[..i + 1], fetch) ==
      if fetch(devs[i].deviceId).Some? then WriteHealth(HealthRows(t, devs[..i], fetch), devs[i].deviceId, fetch(devs[i].deviceId).value)
      else HealthRows(t, devs[..i], fetch)
  {
    assert devs[..i + 1][..i] == devs[..i];
  }

  /** The health loop over one list of devices. */
  method HealthList(db: Database, devs: seq<LiveDevice>, fetch: string -> Option<string>)
    returns (r: seq<LiveDevice>, answered: bool)
    modifies db`devices
    ensures r == HealthDevices(devs, fetch)
    ensures db.devices == HealthRows(old(db.devices), devs, fetch)
    ensures answered == AnyAnswered(devs, fetch)
  {
    ghost var spec := HealthDevices(devs, fetch);
    r, answered := devs, false;
    assert spec[..0] + devs[0..] == devs;
    var i := 0;
    while i < |devs|
      invariant 0 <= i <= |devs|
      invariant r == spec[..i] + devs[i..]
      invariant db.devices == HealthRows(old(db.devices), devs[..i], fetch)
      invariant answered == AnyAnswered(devs[..i], fetch)
    {
      var d := devs[i];
      HealthRowsStep(old(db.devices), devs, i, fetch);
      var h := fetch(d.deviceId);
      if h.Some? {
        assert r[i := d.(health := h.value)] == spec[..i + 1] + devs[i + 1..] by {
          HealthDevicesAt(devs, fetch, i);
          SpliceStep(spec, devs, i);
        }
        r := r[i := d.(health := h.value)];
        db.devices := WriteHealth(db.devices, d.deviceId, h.value);
        answered := true;
      } else {
        assert r == spec[..i + 1] + devs[i + 1..] by {
          HealthDevicesAt(devs, fetch, i);
          SpliceKeep(spec, devs, i);
        }
      }
      assert devs[..i + 1][..i] == devs[..i];
      i := i + 1;
    }
    assert devs[..i] == devs && spec[..i] + devs[i..] == spec;
  }

  /**
   * After a health refresh the tree and the device table agree: the last
   * shown device with a given id that got an answer fixes its health in
   * both.
   */
  lemma {:induction false} HealthRowsMatchTree(t: Table<string, DeviceRow>, devs: seq<LiveDevice>, fetch: string -> Option<string>, i: nat)
    requires i < |devs| && devs[i].deviceId in t.rows && fetch(devs[i].deviceId).Some?
    ensures HealthRows(t, devs, fetch).rows.Keys == t.rows.Keys
    ensures HealthRows(t, devs, fetch).rows[devs[i].deviceId].health == HealthDevices(devs, fetch)[i].health
  {
    var init := devs[..|devs| - 1];
    HealthRowsKeys(t, init, fetch);
    HealthRowsKeys(t, devs, fetch);
    HealthDevicesAt(devs, fetch, i);
    if i < |init| {
      assert init[i] == devs[i];
      HealthDevicesAt(init, fetch, i);
      HealthRowsMatchTree(t, init, fetch, i);
    }
  }

  lemma {:induction false} HealthRowsKeys(t: Table<string, DeviceRow>, devs: seq<LiveDevice>, fetch: string -> Option<string>)
    ensures HealthRows(t, devs, fetch).rows.Keys == t.rows.Keys
    ensures ValidTable(t) ==> ValidTable(HealthRows(t, devs, fetch))
  {
    if devs != [] {
      HealthRowsKeys(t, devs[..|devs| - 1], fetch);
    }
  }

  // ------------------------------------------------------- health, room by room

  function HealthRooms(rooms: seq<LiveRoom>, fetch: string -> Option<string>): (r: seq<LiveRoom>)
    ensures |r| == |rooms|
  {
    if rooms == [] then []
    else HealthRooms(rooms[..|rooms| - 1], fetch) + [rooms[|rooms| - 1].(devices := HealthDevices(rooms[|rooms| - 1].devices, fetch))]
  }

  lemma {:induction false} HealthRoomsAt(rooms: seq<LiveRoom>, fetch: string -> Option<string>, i: nat)
    requires i < |rooms|
    ensures HealthRooms(rooms, fetch)[i] == rooms[i].(devices := HealthDevices(rooms[i].devices, fetch))
  {
    if i < |rooms| - 1 {
      HealthRoomsAt(rooms[..|rooms| - 1], fetch, i);
    }
  }

  function HealthRowsRooms(t: Table<string, DeviceRow>, rooms: seq<LiveRoom>, fetch: string -> Option<string>): Table<string, DeviceRow> {
    if rooms == [] then t
    else HealthRows(HealthRowsRooms(t, rooms[..|rooms| - 1], fetch), rooms[|rooms| - 1].devices, fetch)
  }

  function AnyRoomAnswered(rooms: seq<LiveRoom>, fetch: string -> Option<string>): bool {
    if rooms == [] then false else AnyRoomAnswered(rooms[..|rooms| - 1], fetch) || AnyAnswered(rooms[|rooms| - 1].devices, fetch)
  }

  lemma {:induction false} HealthRowsRoomsKeys(t: Table<string, DeviceRow>, rooms: seq<LiveRoom>, fetch: string -> Option<string>)
    ensures HealthRowsRooms(t, rooms, fetch).rows.Keys == t.rows.Keys
    ensures ValidTable(t) ==> ValidTable(HealthRowsRooms(t, rooms, fetch))
  {
    if rooms != [] {
      HealthRowsRoomsKeys(t, rooms[..|rooms| - 1], fetch);
      HealthRowsKeys(HealthRowsRooms(t, rooms[..|rooms| - 1], fetch), rooms[|rooms| - 1].devices, fetch);
    }
  }

  /** The room loop of the health refresh. */
  method HealthRoomList(db: Database, rooms: seq<LiveRoom>, fetch: string -> Option<string>)
    returns (r: seq<LiveRoom>, answered: bool)
    modifies db`devices
    ensures r == HealthRooms(rooms, fetch)
    ensures db.devices == HealthRowsRooms(old(db.devices), rooms, fetch)
    ensures answered == AnyRoomAnswered(rooms, fetch)
  {
    ghost var spec := HealthRooms(rooms, fetch);
    r, answered := rooms, false;
    assert spec[..0] + rooms[0..] == rooms;
    var i := 0;
    while i < |rooms|
      invariant 0 <= i <= |rooms|
      invariant r == spec[..i] + rooms[i..]
      invariant db.devices == HealthRowsRooms(old(db.devices), rooms[..i], fetch)
      invariant answered == AnyRoomAnswered(rooms[..i], fetch)
    {
      assert rooms[..i + 1][..i] == rooms[..i];
      var devs, a := HealthList(db, rooms[i].devices, fetch);
      assert r[i := rooms[i].(devices := devs)] == spec[..i + 1] + rooms[i + 1..] by {
        HealthRoomsAt(rooms, fetch, i);
        SpliceStep(spec, rooms, i);
      }
      r := r[i := rooms[i].(devices := devs)];
      answered := answered || a;
      i := i + 1;
    }
    assert rooms[..i] == rooms && spec[..i] + rooms[i..] == spec;
  }

  // ---------------------------------------------------------- the two passes

  /** What the two bulk refreshes touch: the tree and the capability and device tables. */
  datatype Snapshot = Snapshot(presence: seq<LiveDevice>, rooms: seq<LiveRoom>,
                               capabilities: Table<CapKey, CapabilityRow>, devices: Table<string, DeviceRow>)

  /** The state `loadAllDevicesStatus` leaves. */
  function StatusPass(s: Snapshot, fetch: string -> Option<StatusReply>, now: string): (r: Snapshot)
  {
    Snapshot(RefreshDevices(s.presence, fetch, now, true), RefreshRooms(s.rooms, fetch, now),
             StatusRowsRooms(StatusRowsAll(s.capabilities, s.presence, fetch, now), s.rooms, fetch, now),
             s.devices)
  }

  /** The state `loadAllDevicesHealth` leaves, with its result. */
  function HealthPass(s: Snapshot, fetch: string -> Option<string>): (r: (Snapshot, bool))
  {
    (Snapshot(HealthDevices(s.presence, fetch), HealthRooms(s.rooms, fetch), s.capabilities,
              HealthRowsRooms(HealthRows(s.devices, s.presence, fetch), s.rooms, fetch)),
     AnyAnswered(s.presence, fetch) || AnyRoomAnswered(s.rooms, fetch))
  }

  /**
   * `loadAllDevicesStatus`, then `loadAllDevicesHealth` only when the status
   * pass reached a room device; paired with the health pass's result (false
   * when it did not run).
   */
  function RefreshPass(s: Snapshot, statusFetch: string -> Option<StatusReply>, now: string,
                       healthFetch: string -> Option<string>): (r: (Snapshot, bool))
  {
    var s1 := StatusPass(s, statusFetch, now);
    if AnyRoomHit(s.rooms, statusFetch) then HealthPass(s1, healthFetch) else (s1, false)
  }
}
