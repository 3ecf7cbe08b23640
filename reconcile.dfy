/**
 * Diff-by-absence reconciliation of a remote snapshot into the store
 * (`loadRooms`, `loadDevices`, `loadAllScenes`), stated as functions of the
 * tables before the pass and the remote items. Each remote item is upserted in
 * turn: an id the table already holds is updated, any other id is inserted with
 * defaults. The ids the table knew for the location and the snapshot did not
 * report are then hidden (rooms, devices) or deleted (scenes).
 */
module Reconcile {
  import opened Wrappers
  import opened Store
  import opened Remote

  // ---------------------------------------------------------------- rooms

  function NewRoom(loc: string, name: string): RoomRow {
    RoomRow(loc, name, 1, 99, None)
  }

  /** `update room set name=? where room_id=?`, else insert with visible=1 and seq=99. */
  function UpsertRoom(t: Table<string, RoomRow>, loc: string, rm: RemoteRoom): Table<string, RoomRow> {
    if rm.roomId in t.rows then Replace(t, rm.roomId, t.rows[rm.roomId].(name := rm.name))
    else Insert(t, rm.roomId, NewRoom(loc, rm.name))
  }

  function UpsertRooms(t: Table<string, RoomRow>, loc: string, items: seq<RemoteRoom>): Table<string, RoomRow> {
    if items == [] then t
    else UpsertRoom(UpsertRooms(t, loc, items[..|items| - 1]), loc, items[|items| - 1])
  }

  /** The room ids `select room_id from room where location_id=?` returns. */
  function KnownRooms(t: Table<string, RoomRow>, loc: string): set<string> {
    set k | k in t.rows && t.rows[k].locationId == loc
  }

  /** The same ids as a list, in scan order: the list `loadRooms` starts from. */
  function KnownRoomList(t: Table<string, RoomRow>, loc: string): (r: seq<string>)
    ensures ValidTable(t) ==> forall k :: k in r <==> k in KnownRooms(t, loc)
    ensures Distinct(t.order) ==> Distinct(r)
  {
    Select(t, (k: string, row: RoomRow) => row.locationId == loc)
  }

  /** `update room set visible=0 where room_id=?` for each id of `ids`. */
  function HideRooms(t: Table<string, RoomRow>, ids: set<string>): Table<string, RoomRow> {
    Table(map k | k in t.rows :: if k in ids then t.rows[k].(visible := 0) else t.rows[k], t.order)
  }

  /** Hiding one more room is one more `update room set visible=0`. */
  lemma HideRoomsStep(t: Table<string, RoomRow>, ids: set<string>, id: string)
    requires id in t.rows
    ensures HideRooms(t, ids + {id}) == Replace(HideRooms(t, ids), id, HideRooms(t, ids).rows[id].(visible := 0))
  {
    assert HideRooms(t, ids + {id}).rows == HideRooms(t, ids).rows[id := HideRooms(t, ids).rows[id].(visible := 0)];
  }

  lemma UpsertRoomsStep(t: Table<string, RoomRow>, loc: string, items: seq<RemoteRoom>, i: nat)
    requires i < |items|
    ensures UpsertRooms(t, loc, items[..i + 1]) == UpsertRoom(UpsertRooms(t, loc, items[..i]), loc, items[i])
  {
    assert items[..i + 1][..i] == items[..i];
  }

  /** The room table after a `loadRooms` pass whose fetch returned `items`. */
  function RoomsAfterLoad(t: Table<string, RoomRow>, loc: string, items: seq<RemoteRoom>): Table<string, RoomRow> {
    HideRooms(UpsertRooms(t, loc, items), KnownRooms(t, loc) - RoomIds(items))
  }

  /** No reported room id belongs to another location's row (the pass would raise otherwise). */
  predicate RoomsFitLocation(t: Table<string, RoomRow>, loc: string, items: seq<RemoteRoom>) {
    forall i :: 0 <= i < |items| && items[i].roomId in t.rows ==> t.rows[items[i].roomId].locationId == loc
  }

  lemma RoomIdsSnoc(items: seq<RemoteRoom>)
    requires items != []
    ensures RoomIds(items) == RoomIds(items[..|items| - 1]) + {items[|items| - 1].roomId}
  {
    var init := items[..|items| - 1];
    forall k | k in RoomIds(items) ensures k in RoomIds(init) + {items[|items| - 1].roomId} {
      var i :| 0 <= i < |items| && items[i].roomId == k;
      if i < |init| { assert init[i] == items[i]; }
    }
    forall k | k in RoomIds(init) ensures k in RoomIds(items) {
      var i :| 0 <= i < |init| && init[i].roomId == k;
      assert items[i] == init[i];
    }
  }

  lemma {:induction false} UpsertRoomsKeys(t: Table<string, RoomRow>, loc: string, items: seq<RemoteRoom>)
    ensures UpsertRooms(t, loc, items).rows.Keys == t.rows.Keys + RoomIds(items)
    ensures ValidTable(t) ==> ValidTable(UpsertRooms(t, loc, items))
    ensures t.order <= UpsertRooms(t, loc, items).order
  {
    if items != [] {
      UpsertRoomsKeys(t, loc, items[..|items| - 1]);
      RoomIdsSnoc(items);
    }
  }

  /** One upsert rewrites the row of its own room only. */
  lemma UpsertRoomFacts(t: Table<string, RoomRow>, loc: string, rm: RemoteRoom)
    ensures UpsertRoom(t, loc, rm).rows.Keys == t.rows.Keys + {rm.roomId}
    ensures forall k :: k in t.rows && k != rm.roomId ==> UpsertRoom(t, loc, rm).rows[k] == t.rows[k]
    ensures UpsertRoom(t, loc, rm).rows[rm.roomId] ==
      if rm.roomId in t.rows then t.rows[rm.roomId].(name := rm.name) else NewRoom(loc, rm.name)
  {
  }

  /** A known room the platform did not report keeps its row through the upsert pass. */
  lemma {:induction false} UpsertRoomsOther(t: Table<string, RoomRow>, loc: string, items: seq<RemoteRoom>, k: string)
    requires k in t.rows && k !in RoomIds(items)
    ensures k in UpsertRooms(t, loc, items).rows
    ensures UpsertRooms(t, loc, items).rows[k] == t.rows[k]
  {
    if items != [] {
      var init := items[..|items| - 1];
      RoomIdsSnoc(items);
      UpsertRoomsOther(t, loc, init, k);
      UpsertRoomFacts(UpsertRooms(t, loc, init), loc, items[|items| - 1]);
    }
  }

  /** A reported room ends the upsert pass renamed when it was known, inserted otherwise. */
  lemma {:induction false} UpsertRoomsAt(t: Table<string, RoomRow>, loc: string, items: seq<RemoteRoom>, i: nat)
    requires DistinctRooms(items) && i < |items|
    ensures items[i].roomId in UpsertRooms(t, loc, items).rows
    ensures UpsertRooms(t, loc, items).rows[items[i].roomId] ==
      if items[i].roomId in t.rows then t.rows[items[i].roomId].(name := items[i].name)
      else NewRoom(loc, items[i].name)
  {
    var init, last := items[..|items| - 1], items[|items| - 1];
    DistinctRoomsSplit(items, |items| - 1);
    var t1 := UpsertRooms(t, loc, init);
    UpsertRoomFacts(t1, loc, last);
    if i < |init| {
      DistinctRoomsSplit(items, i + 1);
      assert items[i] == init[i];
      assert items[i].roomId in RoomIds(init);
      UpsertRoomsAt(t, loc, init, i);
    } else if last.roomId in t.rows {
      UpsertRoomsOther(t, loc, init, last.roomId);
    } else {
      UpsertRoomsKeys(t, loc, init);
    }
  }

  lemma UpsertRoomsRows(t: Table<string, RoomRow>, loc: string, items: seq<RemoteRoom>)
    requires DistinctRooms(items)
    ensures UpsertRooms(t, loc, items).rows.Keys == t.rows.Keys + RoomIds(items)
    ensures forall k :: k in t.rows && k !in RoomIds(items) ==> UpsertRooms(t, loc, items).rows[k] == t.rows[k]
    ensures forall i :: 0 <= i < |items| ==>
      UpsertRooms(t, loc, items).rows[items[i].roomId] ==
        if items[i].roomId in t.rows then t.rows[items[i].roomId].(name := items[i].name)
        else NewRoom(loc, items[i].name)
  {
    UpsertRoomsKeys(t, loc, items);
    forall k | k in t.rows && k !in RoomIds(items)
      ensures UpsertRooms(t, loc, items).rows[k] == t.rows[k]
    {
      UpsertRoomsOther(t, loc, items, k);
    }
    forall i | 0 <= i < |items|
      ensures UpsertRooms(t, loc, items).rows[items[i].roomId] ==
        if items[i].roomId in t.rows then t.rows[items[i].roomId].(name := items[i].name)
        else NewRoom(loc, items[i].name)
    {
      UpsertRoomsAt(t, loc, items, i);
    }
  }

  /**
   * The room table after the upsert pass: the reported ids are added to the
   * keys after the old ones; a known reported room is renamed, a new one
   * inserted for the location; every other row is unchanged.
   */
  lemma UpsertRoomsFacts(t: Table<string, RoomRow>, loc: string, items: seq<RemoteRoom>)
    requires DistinctRooms(items)
    ensures UpsertRooms(t, loc, items).rows.Keys == t.rows.Keys + RoomIds(items)
    ensures ValidTable(t) ==> ValidTable(UpsertRooms(t, loc, items))
    ensures t.order <= UpsertRooms(t, loc, items).order
    ensures forall k :: k in t.rows && k !in RoomIds(items) ==> UpsertRooms(t, loc, items).rows[k] == t.rows[k]
    ensures forall i :: 0 <= i < |items| ==>
      UpsertRooms(t, loc, items).rows[items[i].roomId] ==
        if items[i].roomId in t.rows then t.rows[items[i].roomId].(name := items[i].name)
        else NewRoom(loc, items[i].name)
  {
    UpsertRoomsKeys(t, loc, items);
    UpsertRoomsRows(t, loc, items);
  }

  /**
   * One step of the upsert loop of `loadRooms`, on values: `pending` starts
   * as the location's known rooms `p0` and loses each reported id that
   * matched a row; an id that matches is always still pending, so the
   * `remove` never fails.
   */
  lemma UpsertRoomsPendingStep(t: Table<string, RoomRow>, loc: string, items: seq<RemoteRoom>, i: nat)
    requires DistinctRooms(items) && RoomsFitLocation(t, loc, items) && i < |items|
    requires ValidTable(t)
    ensures UpsertRooms(t, loc, items[..i + 1]) == UpsertRoom(UpsertRooms(t, loc, items[..i]), loc, items[i])
    ensures var x := items[i].roomId;
      var pending := Without(KnownRoomList(t, loc), RoomIds(items[..i]));
      if x in UpsertRooms(t, loc, items[..i]).rows
      then x in pending && Without(pending, {x}) == Without(KnownRoomList(t, loc), RoomIds(items[..i + 1]))
      else pending == Without(KnownRoomList(t, loc), RoomIds(items[..i + 1]))
  {
    var x := items[i].roomId;
    var before := RoomIds(items[..i]);
    UpsertRoomsStep(t, loc, items, i);
    DistinctRoomsSplit(items, i);
    assert UpsertRooms(t, loc, items[..i]).rows.Keys == t.rows.Keys + before by {
      UpsertRoomsFacts(t, loc, items[..i]);
    }
    assert RoomIds(items[..i + 1]) == before + {x} by {
      assert items[..i + 1][..i] == items[..i];
      RoomIdsSnoc(items[..i + 1]);
    }
    WithoutTwice(KnownRoomList(t, loc), before, {x});
    if x in UpsertRooms(t, loc, items[..i]).rows {
      assert x in t.rows;
      assert t.rows[x].locationId == loc;
      assert x in KnownRooms(t, loc);
    } else {
      WithoutSame(KnownRoomList(t, loc), RoomIds(items[..i]), RoomIds(items[..i + 1]));
    }
  }

  /**
   * `loadRooms` is a diff by absence that never deletes: every row survives;
   * a known room the snapshot left out is hidden and otherwise untouched; a
   * reported room that was known gets only its name overwritten (visible, seq
   * and guest_access kept); a new room is inserted visible with seq 99 and no
   * guest access; rows of other locations that were not reported stay as they
   * were; new rooms come after the old ones in scan order.
   */
  lemma LoadRoomsReconciles(t: Table<string, RoomRow>, loc: string, items: seq<RemoteRoom>)
    requires ValidTable(t) && DistinctRooms(items)
    ensures var r := RoomsAfterLoad(t, loc, items);
      && ValidTable(r)
      && r.rows.Keys == t.rows.Keys + RoomIds(items)
      && t.order <= r.order
      && (forall k :: k in KnownRooms(t, loc) && k !in RoomIds(items) ==> r.rows[k] == t.rows[k].(visible := 0))
      && (forall k :: k in t.rows && k !in KnownRooms(t, loc) && k !in RoomIds(items) ==> r.rows[k] == t.rows[k])
      && (forall i :: 0 <= i < |items| && items[i].roomId in t.rows ==>
            r.rows[items[i].roomId] == t.rows[items[i].roomId].(name := items[i].name))
      && (forall i :: 0 <= i < |items| && items[i].roomId !in t.rows ==>
            r.rows[items[i].roomId] == RoomRow(loc, items[i].name, 1, 99, None))
  {
    UpsertRoomsFacts(t, loc, items);
  }

  /** The plan `loadRooms` follows: upsert, then hide the known rooms still pending. */
  lemma LoadRoomsPlan(t: Table<string, RoomRow>, loc: string, items: seq<RemoteRoom>)
    requires ValidTable(t) && DistinctRooms(items)
    ensures var u := UpsertRooms(t, loc, items);
      var pending := Without(KnownRoomList(t, loc), RoomIds(items));
      && (forall k :: k in pending ==> k in u.rows)
      && HideRooms(u, Elems(pending)) == RoomsAfterLoad(t, loc, items)
    ensures ValidTable(RoomsAfterLoad(t, loc, items))
  {
    var pending := Without(KnownRoomList(t, loc), RoomIds(items));
    assert Elems(pending) == KnownRooms(t, loc) - RoomIds(items);
    UpsertRoomsKeys(t, loc, items);
  }

  /**
   * A room hidden by an earlier pass stays hidden when the platform reports it
   * again: the update only rewrites the name.
   */
  lemma ReappearingRoomStaysHidden(t: Table<string, RoomRow>, loc: string, items: seq<RemoteRoom>, i: int)
    requires ValidTable(t) && DistinctRooms(items)
    requires 0 <= i < |items| && items[i].roomId in t.rows && t.rows[items[i].roomId].visible == 0
    ensures items[i].roomId in RoomsAfterLoad(t, loc, items).rows
    ensures RoomsAfterLoad(t, loc, items).rows[items[i].roomId].visible == 0
  {
    LoadRoomsReconciles(t, loc, items);
  }

  // -------------------------------------------------------------- devices

  function DeviceTypeName(dev: RemoteDevice): string {
    dev.deviceTypeName.GetOr("")
  }

  /** The columns `update device set room_id, name, label, category, device_type_name` rewrites. */
  function RefreshedDevice(row: DeviceRow, dev: RemoteDevice): DeviceRow
    requires HasCategory(dev)
  {
    row.(roomId := RoomOf(dev), name := dev.name, deviceLabel := dev.deviceLabel,
         category := Category(dev), deviceTypeName := DeviceTypeName(dev))
  }

  /** A first-seen device: health "?", visible, seq 99, no guest access, empty nickname and icon. */
  function NewDevice(loc: string, dev: RemoteDevice): DeviceRow
    requires HasCategory(dev)
  {
    DeviceRow(loc, RoomOf(dev), dev.presentationId.GetOr(""), dev.name, "?", dev.deviceLabel,
              Category(dev), DeviceTypeName(dev), 1, 99, Some(0), "", "")
  }

  /** A first-seen capability: visible, empty state, seq 99, never updated. */
  function NewCapability(loc: string): CapabilityRow {
    CapabilityRow(loc, 1, "", 99, "")
  }

  /**
   * One capability row per listed capability id. A key already present is
   * left alone (the source's insert would raise there; the pass never does it).
   */
  function InsertCapabilities(ct: Table<CapKey, CapabilityRow>, loc: string, deviceId: string, capIds: seq<string>)
    : Table<CapKey, CapabilityRow>
  {
    if capIds == [] then ct
    else
      var t1 := InsertCapabilities(ct, loc, deviceId, capIds[..|capIds| - 1]);
      var k := CapKey(deviceId, capIds[|capIds| - 1]);
      if k in t1.rows then t1 else Insert(t1, k, NewCapability(loc))
  }

  lemma {:induction false} InsertCapabilitiesFacts(ct: Table<CapKey, CapabilityRow>, loc: string, deviceId: string, capIds: seq<string>)
    ensures var r := InsertCapabilities(ct, loc, deviceId, capIds);
      && r.rows.Keys == ct.rows.Keys + (set c | c in capIds :: CapKey(deviceId, c))
      && (ValidTable(ct) ==> ValidTable(r))
      && (forall k :: k in ct.rows ==> r.rows[k] == ct.rows[k])
      && (forall k :: k in r.rows && k !in ct.rows ==> r.rows[k] == NewCapability(loc))
  {
    if capIds != [] {
      var init := capIds[..|capIds| - 1];
      InsertCapabilitiesFacts(ct, loc, deviceId, init);
      assert capIds == init + [capIds[|capIds| - 1]];
      assert (set c | c in capIds :: CapKey(deviceId, c))
        == (set c | c in init :: CapKey(deviceId, c)) + {CapKey(deviceId, capIds[|capIds| - 1])};
    }
  }

  /** The device and capability tables, which `loadDevices` changes together. */
  datatype DeviceTables = DeviceTables(devices: Table<string, DeviceRow>, capabilities: Table<CapKey, CapabilityRow>)

  /**
   * The device update by id; when no row matched, the insert of the device and
   * of one capability row per capability of each of its components.
   */
  function UpsertDevice(d: DeviceTables, loc: string, dev: RemoteDevice): DeviceTables
    requires HasCategory(dev)
  {
    if dev.deviceId in d.devices.rows then
      d.(devices := Replace(d.devices, dev.deviceId, RefreshedDevice(d.devices.rows[dev.deviceId], dev)))
    else
      DeviceTables(Insert(d.devices, dev.deviceId, NewDevice(loc, dev)),
                   InsertCapabilities(d.capabilities, loc, dev.deviceId, AllCapabilities(dev.components)))
  }

  predicate AllHaveCategory(items: seq<RemoteDevice>) {
    forall i :: 0 <= i < |items| ==> HasCategory(items[i])
  }

  function UpsertDevices(d: DeviceTables, loc: string, items: seq<RemoteDevice>): DeviceTables
    requires AllHaveCategory(items)
  {
    if items == [] then d
    else UpsertDevice(UpsertDevices(d, loc, items[..|items| - 1]), loc, items[|items| - 1])
  }

  /** The device ids `select device_id from device where location_id=?` returns. */
  function KnownDevices(t: Table<string, DeviceRow>, loc: string): set<string> {
    set k | k in t.rows && t.rows[k].locationId == loc
  }

  /** The same ids as a list, in scan order: the list `loadDevices` starts from. */
  function KnownDeviceList(t: Table<string, DeviceRow>, loc: string): (r: seq<string>)
    ensures ValidTable(t) ==> forall k :: k in r <==> k in KnownDevices(t, loc)
    ensures Distinct(t.order) ==> Distinct(r)
  {
    Select(t, (k: string, row: DeviceRow) => row.locationId == loc)
  }

  function HideDevices(t: Table<string, DeviceRow>, ids: set<string>): Table<string, DeviceRow> {
    Table(map k | k in t.rows :: if k in ids then t.rows[k].(visible := 0) else t.rows[k], t.order)
  }

  lemma HideDevicesStep(t: Table<string, DeviceRow>, ids: set<string>, id: string)
    requires id in t.rows
    ensures HideDevices(t, ids + {id}) == Replace(HideDevices(t, ids), id, HideDevices(t, ids).rows[id].(visible := 0))
  {
    assert HideDevices(t, ids + {id}).rows == HideDevices(t, ids).rows[id := HideDevices(t, ids).rows[id].(visible := 0)];
  }

  lemma UpsertDevicesStep(d: DeviceTables, loc: string, items: seq<RemoteDevice>, i: nat)
    requires i < |items| && AllHaveCategory(items)
    ensures AllHaveCategory(items[..i])
    ensures UpsertDevices(d, loc, items[..i + 1]) == UpsertDevice(UpsertDevices(d, loc, items[..i]), loc, items[i])
  {
    assert items[..i + 1][..i] == items[..i];
    assert forall j :: 0 <= j < i ==> items[..i][j] == items[j];
  }

  lemma InsertCapabilitiesSnoc(ct: Table<CapKey, CapabilityRow>, loc: string, deviceId: string, capIds: seq<string>, c: string)
    ensures InsertCapabilities(ct, loc, deviceId, capIds + [c]) ==
      var t1 := InsertCapabilities(ct, loc, deviceId, capIds);
      if CapKey(deviceId, c) in t1.rows then t1 else Insert(t1, CapKey(deviceId, c), NewCapability(loc))
  {
    assert (capIds + [c])[..|capIds|] == capIds;
  }

  /**
   * One step of the upsert loop of `loadDevices`, on values: the tables so
   * far keep every capability row owned; a device seen for the first time
   * lists distinct capabilities; and `pending` loses exactly the reported ids
   * that matched a row, which are always still pending.
   */
  lemma UpsertDevicesPendingStep(d: DeviceTables, loc: string, items: seq<RemoteDevice>, i: nat)
    requires DistinctDevices(items) && AllHaveCategory(items) && i < |items|
    requires DevicesFitLocation(d.devices, loc, items) && NewDevicesListCapabilitiesOnce(d.devices, items)
    requires CapabilitiesOwned(d)
    requires ValidTable(d.devices)
    ensures AllHaveCategory(items[..i]) && AllHaveCategory(items[..i + 1])
    ensures UpsertDevices(d, loc, items[..i + 1]) == UpsertDevice(UpsertDevices(d, loc, items[..i]), loc, items[i])
    ensures CapabilitiesOwned(UpsertDevices(d, loc, items[..i]))
    ensures var x := items[i].deviceId;
      var pending := Without(KnownDeviceList(d.devices, loc), DeviceIds(items[..i]));
      if x in UpsertDevices(d, loc, items[..i]).devices.rows
      then x in pending && Without(pending, {x}) == Without(KnownDeviceList(d.devices, loc), DeviceIds(items[..i + 1]))
      else pending == Without(KnownDeviceList(d.devices, loc), DeviceIds(items[..i + 1])) && DistinctStrings(AllCapabilities(items[i].components))
  {
    var x := items[i].deviceId;
    var before := DeviceIds(items[..i]);
    UpsertDevicesStep(d, loc, items, i);
    assert AllHaveCategory(items[..i + 1]) by {
      assert forall j :: 0 <= j < i + 1 ==> items[..i + 1][j] == items[j];
    }
    DistinctDevicesSplit(items, i);
    assert UpsertDevices(d, loc, items[..i]).devices.rows.Keys == d.devices.rows.Keys + before by {
      UpsertDevicesRows(d, loc, items[..i]);
    }
    assert CapabilitiesOwned(UpsertDevices(d, loc, items[..i])) by {
      UpsertDevicesKeepsOwnership(d, loc, items[..i]);
    }
    assert DeviceIds(items[..i + 1]) == before + {x} by {
      assert items[..i + 1][..i] == items[..i];
      DeviceIdsSnoc(items[..i + 1]);
    }
    WithoutTwice(KnownDeviceList(d.devices, loc), before, {x});
    if x in UpsertDevices(d, loc, items[..i]).devices.rows {
      assert x in d.devices.rows;
      assert d.devices.rows[x].locationId == loc;
      assert x in KnownDevices(d.devices, loc);
    } else {
      WithoutSame(KnownDeviceList(d.devices, loc), before, DeviceIds(items[..i + 1]));
    }
  }

  /**
   * One capability insert of a first-seen device, on values: the key is
   * new, so the insert succeeds and extends the running table by one row.
   */
  lemma InsertCapabilityStep(ct: Table<CapKey, CapabilityRow>, loc: string, deviceId: string, comps: seq<Component>, c: nat, j: nat)
    requires forall k :: k in ct.rows ==> k.deviceId != deviceId
    requires DistinctStrings(AllCapabilities(comps))
    requires c < |comps| && j < |comps[c].capabilities|
    ensures var done := AllCapabilities(comps[..c]) + comps[c].capabilities[..j];
      CapKey(deviceId, comps[c].capabilities[j]) !in InsertCapabilities(ct, loc, deviceId, done).rows
    ensures var done := AllCapabilities(comps[..c]) + comps[c].capabilities[..j];
      InsertCapabilities(ct, loc, deviceId, AllCapabilities(comps[..c]) + comps[c].capabilities[..j + 1])
        == Insert(InsertCapabilities(ct, loc, deviceId, done), CapKey(deviceId, comps[c].capabilities[j]), NewCapability(loc))
  {
    var caps := comps[c].capabilities;
    var before := AllCapabilities(comps[..c]);
    var done := before + caps[..j];
    assert caps[j] !in done by {
      CapabilitiesAround(comps, c, j);
      DistinctStringsSplit(AllCapabilities(comps), done, caps[j], caps[j + 1..] + AllCapabilities(comps[c + 1..]));
    }
    assert CapKey(deviceId, caps[j]) !in InsertCapabilities(ct, loc, deviceId, done).rows by {
      InsertCapabilitiesFacts(ct, loc, deviceId, done);
    }
    InsertCapabilitiesSnoc(ct, loc, deviceId, done, caps[j]);
    assert before + caps[..j + 1] == done + [caps[j]];
  }

  /** The capability ids of the components up to `c`, then those of component `c`. */
  lemma ComponentStep(comps: seq<Component>, c: nat)
    requires c < |comps|
    ensures AllCapabilities(comps[..c]) + comps[c].capabilities[..0] == AllCapabilities(comps[..c])
    ensures AllCapabilities(comps[..c]) + comps[c].capabilities[..|comps[c].capabilities|] == AllCapabilities(comps[..c + 1])
  {
    assert comps[..c + 1][..c] == comps[..c];
    assert comps[c].capabilities[..|comps[c].capabilities|] == comps[c].capabilities;
  }

  /** The device and capability tables after a `loadDevices` pass whose fetch returned `items`. */
  function DevicesAfterLoad(d: DeviceTables, loc: string, items: seq<RemoteDevice>): DeviceTables
    requires AllHaveCategory(items)
  {
    var u := UpsertDevices(d, loc, items);
    u.(devices := HideDevices(u.devices, KnownDevices(d.devices, loc) - DeviceIds(items)))
  }

  predicate DevicesFitLocation(t: Table<string, DeviceRow>, loc: string, items: seq<RemoteDevice>) {
    forall i :: 0 <= i < |items| && items[i].deviceId in t.rows ==> t.rows[items[i].deviceId].locationId == loc
  }

  /** A device seen for the first time lists each capability once across its components. */
  predicate NewDevicesListCapabilitiesOnce(t: Table<string, DeviceRow>, items: seq<RemoteDevice>) {
    forall i :: 0 <= i < |items| && items[i].deviceId !in t.rows ==> DistinctStrings(AllCapabilities(items[i].components))
  }

  ghost predicate CapabilitiesOwned(d: DeviceTables) {
    forall k :: k in d.capabilities.rows ==> k.deviceId in d.devices.rows
  }

  /** `k` is a capability of a device that `items` reports and the tables did not hold. */
  ghost predicate IsNewCapability(d: DeviceTables, items: seq<RemoteDevice>, k: CapKey) {
    && k.deviceId !in d.devices.rows
    && exists i :: 0 <= i < |items| && items[i].deviceId == k.deviceId && k.capabilityId in AllCapabilities(items[i].components)
  }

  lemma DeviceIdsSnoc(items: seq<RemoteDevice>)
    requires items != []
    ensures DeviceIds(items) == DeviceIds(items[..|items| - 1]) + {items[|items| - 1].deviceId}
  {
    var init := items[..|items| - 1];
    forall k | k in DeviceIds(items) ensures k in DeviceIds(init) + {items[|items| - 1].deviceId} {
      var i :| 0 <= i < |items| && items[i].deviceId == k;
      if i < |init| { assert init[i] == items[i]; }
    }
    forall k | k in DeviceIds(init) ensures k in DeviceIds(items) {
      var i :| 0 <= i < |init| && init[i].deviceId == k;
      assert items[i] == init[i];
    }
  }

  lemma DistinctDevicesInit(items: seq<RemoteDevice>)
    requires items != [] && DistinctDevices(items)
    ensures DistinctDevices(items[..|items| - 1])
    ensures items[|items| - 1].deviceId !in DeviceIds(items[..|items| - 1])
    ensures DeviceIds(items) == DeviceIds(items[..|items| - 1]) + {items[|items| - 1].deviceId}
  {
    var init := items[..|items| - 1];
    forall i | 0 <= i < |init| ensures init[i] == items[i] { }
    DeviceIdsSnoc(items);
  }

  /** The device keys after the upsert pass: the reported ids are added after the old ones. */
  lemma {:induction false} UpsertDevicesKeys(d: DeviceTables, loc: string, items: seq<RemoteDevice>)
    requires AllHaveCategory(items)
    ensures UpsertDevices(d, loc, items).devices.rows.Keys == d.devices.rows.Keys + DeviceIds(items)
    ensures ValidTable(d.devices) ==> ValidTable(UpsertDevices(d, loc, items).devices)
    ensures d.devices.order <= UpsertDevices(d, loc, items).devices.order
  {
    if items != [] {
      UpsertDevicesKeys(d, loc, items[..|items| - 1]);
      DeviceIdsSnoc(items);
    }
  }

  /** A known device the platform did not report keeps its row through the upsert pass. */
  lemma {:induction false} UpsertDevicesOther(d: DeviceTables, loc: string, items: seq<RemoteDevice>, k: string)
    requires AllHaveCategory(items) && k in d.devices.rows && k !in DeviceIds(items)
    ensures k in UpsertDevices(d, loc, items).devices.rows
    ensures UpsertDevices(d, loc, items).devices.rows[k] == d.devices.rows[k]
  {
    if items != [] {
      var init := items[..|items| - 1];
      DeviceIdsSnoc(items);
      UpsertDevicesOther(d, loc, init, k);
      UpsertDeviceFacts(UpsertDevices(d, loc, init), loc, items[|items| - 1]);
    }
  }

  /** A reported device ends the upsert pass refreshed when it was known, inserted otherwise. */
  lemma {:induction false} UpsertDevicesAt(d: DeviceTables, loc: string, items: seq<RemoteDevice>, i: nat)
    requires DistinctDevices(items) && AllHaveCategory(items) && i < |items|
    ensures items[i].deviceId in UpsertDevices(d, loc, items).devices.rows
    ensures UpsertDevices(d, loc, items).devices.rows[items[i].deviceId] ==
      if items[i].deviceId in d.devices.rows then RefreshedDevice(d.devices.rows[items[i].deviceId], items[i])
      else NewDevice(loc, items[i])
  {
    var init, last := items[..|items| - 1], items[|items| - 1];
    var x := items[i].deviceId;
    var want := if x in d.devices.rows then RefreshedDevice(d.devices.rows[x], items[i]) else NewDevice(loc, items[i]);
    DistinctDevicesInit(items);
    var u1 := UpsertDevices(d, loc, init);
    var u := UpsertDevice(u1, loc, last);
    assert UpsertDevices(d, loc, items) == u;
    UpsertDeviceFacts(u1, loc, last);
    if i < |init| {
      assert items[i] == init[i];
      assert x in DeviceIds(init);
      UpsertDevicesAt(d, loc, init, i);
    } else {
      assert items[i] == last;
      if x in d.devices.rows {
        UpsertDevicesOther(d, loc, init, x);
      } else {
        UpsertDevicesKeys(d, loc, init);
        assert x !in u1.devices.rows;
      }
    }
  }

  /** The device table after the upsert pass. */
  lemma UpsertDevicesRows(d: DeviceTables, loc: string, items: seq<RemoteDevice>)
    requires DistinctDevices(items) && AllHaveCategory(items)
    ensures UpsertDevices(d, loc, items).devices.rows.Keys == d.devices.rows.Keys + DeviceIds(items)
    ensures ValidTable(d.devices) ==> ValidTable(UpsertDevices(d, loc, items).devices)
    ensures d.devices.order <= UpsertDevices(d, loc, items).devices.order
    ensures forall k :: k in d.devices.rows && k !in DeviceIds(items) ==>
      UpsertDevices(d, loc, items).devices.rows[k] == d.devices.rows[k]
    ensures forall i :: 0 <= i < |items| ==>
      UpsertDevices(d, loc, items).devices.rows[items[i].deviceId] ==
        if items[i].deviceId in d.devices.rows then RefreshedDevice(d.devices.rows[items[i].deviceId], items[i])
        else NewDevice(loc, items[i])
  {
    UpsertDevicesKeys(d, loc, items);
    forall k | k in d.devices.rows && k !in DeviceIds(items)
      ensures UpsertDevices(d, loc, items).devices.rows[k] == d.devices.rows[k]
    {
      UpsertDevicesOther(d, loc, items, k);
    }
    forall i | 0 <= i < |items|
      ensures UpsertDevices(d, loc, items).devices.rows[items[i].deviceId] ==
        if items[i].deviceId in d.devices.rows then RefreshedDevice(d.devices.rows[items[i].deviceId], items[i])
        else NewDevice(loc, items[i])
    {
      UpsertDevicesAt(d, loc, items, i);
    }
  }

  /** One upsert rewrites the row of its own device only. */
  lemma UpsertDeviceFacts(d: DeviceTables, loc: string, dev: RemoteDevice)
    requires HasCategory(dev)
    ensures UpsertDevice(d, loc, dev).devices.rows.Keys == d.devices.rows.Keys + {dev.deviceId}
    ensures forall k :: k in d.devices.rows && k != dev.deviceId ==> UpsertDevice(d, loc, dev).devices.rows[k] == d.devices.rows[k]
    ensures UpsertDevice(d, loc, dev).devices.rows[dev.deviceId] ==
      if dev.deviceId in d.devices.rows then RefreshedDevice(d.devices.rows[dev.deviceId], dev) else NewDevice(loc, dev)
  {
  }

  /** The upsert pass keeps every capability row it found; the rows it adds are fresh ones. */
  lemma {:induction false} UpsertDevicesKeepsCapabilityRows(d: DeviceTables, loc: string, items: seq<RemoteDevice>)
    requires AllHaveCategory(items)
    ensures ValidTable(d.capabilities) ==> ValidTable(UpsertDevices(d, loc, items).capabilities)
    ensures forall k :: k in d.capabilities.rows ==>
      k in UpsertDevices(d, loc, items).capabilities.rows && UpsertDevices(d, loc, items).capabilities.rows[k] == d.capabilities.rows[k]
    ensures forall k :: k in UpsertDevices(d, loc, items).capabilities.rows && k !in d.capabilities.rows ==>
      UpsertDevices(d, loc, items).capabilities.rows[k] == NewCapability(loc)
  {
    if items != [] {
      var init, last := items[..|items| - 1], items[|items| - 1];
      UpsertDevicesKeepsCapabilityRows(d, loc, init);
      var u1 := UpsertDevices(d, loc, init);
      if last.deviceId !in u1.devices.rows {
        InsertCapabilitiesFacts(u1.capabilities, loc, last.deviceId, AllCapabilities(last.components));
      }
    }
  }

  /** Every capability row the upsert pass adds belongs to a first-seen device. */
  lemma {:induction false} UpsertDevicesAddsOnlyNew(d: DeviceTables, loc: string, items: seq<RemoteDevice>)
    requires DistinctDevices(items) && AllHaveCategory(items)
    ensures forall k :: k in UpsertDevices(d, loc, items).capabilities.rows && k !in d.capabilities.rows ==>
      IsNewCapability(d, items, k)
  {
    if items != [] {
      var init, last := items[..|items| - 1], items[|items| - 1];
      DistinctDevicesInit(items);
      UpsertDevicesAddsOnlyNew(d, loc, init);
      var u1 := UpsertDevices(d, loc, init);
      var u := UpsertDevice(u1, loc, last);
      forall k | IsNewCapability(d, init, k) ensures IsNewCapability(d, items, k) {
        var i :| 0 <= i < |init| && init[i].deviceId == k.deviceId && k.capabilityId in AllCapabilities(init[i].components);
        assert items[i] == init[i];
      }
      if last.deviceId !in u1.devices.rows {
        var caps := AllCapabilities(last.components);
        assert last.deviceId !in d.devices.rows by {
          UpsertDevicesRows(d, loc, init);
        }
        InsertCapabilitiesFacts(u1.capabilities, loc, last.deviceId, caps);
        forall k | k in u.capabilities.rows && k !in u1.capabilities.rows
          ensures IsNewCapability(d, items, k)
        {
          var c :| c in caps && k == CapKey(last.deviceId, c);
          assert items[|items| - 1] == last;
        }
      }
    }
  }

  /** Every capability of a first-seen device gets a row. */
  lemma {:induction false} UpsertDevicesAddsAllNew(d: DeviceTables, loc: string, items: seq<RemoteDevice>)
    requires DistinctDevices(items) && AllHaveCategory(items)
    ensures forall k :: IsNewCapability(d, items, k) ==> k in UpsertDevices(d, loc, items).capabilities.rows
  {
    if items != [] {
      var init, last := items[..|items| - 1], items[|items| - 1];
      DistinctDevicesInit(items);
      UpsertDevicesAddsAllNew(d, loc, init);
      var u1 := UpsertDevices(d, loc, init);
      var u := UpsertDevice(u1, loc, last);
      var caps := AllCapabilities(last.components);
      assert u1.capabilities.rows.Keys <= u.capabilities.rows.Keys by {
        if last.deviceId !in u1.devices.rows {
          InsertCapabilitiesFacts(u1.capabilities, loc, last.deviceId, caps);
        }
      }
      forall k | IsNewCapability(d, items, k) ensures k in u.capabilities.rows {
        var i :| 0 <= i < |items| && items[i].deviceId == k.deviceId && k.capabilityId in AllCapabilities(items[i].components);
        if i < |init| {
          assert init[i] == items[i];
          assert IsNewCapability(d, init, k);
        } else {
          assert last.deviceId !in u1.devices.rows by {
            DistinctDevicesSplit(items, |items| - 1);
            assert items[..|items| - 1] == init;
            UpsertDevicesRows(d, loc, init);
          }
          InsertCapabilitiesFacts(u1.capabilities, loc, last.deviceId, caps);
          assert k in (set c | c in caps :: CapKey(last.deviceId, c));
        }
      }
    }
  }

  /**
   * The capability rows after the upsert pass: the old rows unchanged, and
   * exactly the capabilities of the first-seen devices added, each visible
   * with seq 99 and an empty state.
   */
  lemma UpsertDevicesCapabilities(d: DeviceTables, loc: string, items: seq<RemoteDevice>)
    requires DistinctDevices(items) && AllHaveCategory(items)
    ensures ValidTable(d.capabilities) ==> ValidTable(UpsertDevices(d, loc, items).capabilities)
    ensures forall k :: k in d.capabilities.rows ==>
      k in UpsertDevices(d, loc, items).capabilities.rows && UpsertDevices(d, loc, items).capabilities.rows[k] == d.capabilities.rows[k]
    ensures forall k :: k in UpsertDevices(d, loc, items).capabilities.rows && k !in d.capabilities.rows ==>
      UpsertDevices(d, loc, items).capabilities.rows[k] == NewCapability(loc) && IsNewCapability(d, items, k)
    ensures forall k :: IsNewCapability(d, items, k) ==> k in UpsertDevices(d, loc, items).capabilities.rows
  {
    UpsertDevicesKeepsCapabilityRows(d, loc, items);
    UpsertDevicesAddsOnlyNew(d, loc, items);
    UpsertDevicesAddsAllNew(d, loc, items);
  }

  /** Every capability row still belongs to a device row after the upsert pass. */
  lemma UpsertDevicesKeepsOwnership(d: DeviceTables, loc: string, items: seq<RemoteDevice>)
    requires DistinctDevices(items) && AllHaveCategory(items) && CapabilitiesOwned(d)
    ensures CapabilitiesOwned(UpsertDevices(d, loc, items))
  {
    UpsertDevicesRows(d, loc, items);
    UpsertDevicesCapabilities(d, loc, items);
    var u := UpsertDevices(d, loc, items);
    forall k | k in u.capabilities.rows ensures k.deviceId in u.devices.rows {
      if k !in d.capabilities.rows {
        var i :| 0 <= i < |items| && items[i].deviceId == k.deviceId && k.capabilityId in AllCapabilities(items[i].components);
      }
    }
  }

  /**
   * `loadDevices` never deletes a device: a known device the snapshot left
   * out is hidden and otherwise untouched; a known reported device gets only
   * room, name, label, category and device type rewritten; a new device is
   * inserted with health "?", visible, seq 99, guest access 0 and empty
   * nickname and icon. Existing capability rows are untouched, and the only
   * capability rows added are those of the new devices, one per capability of
   * each component, visible with seq 99 and an empty state.
   */
  lemma LoadDevicesReconciles(d: DeviceTables, loc: string, items: seq<RemoteDevice>)
    requires ValidTable(d.devices) && ValidTable(d.capabilities) && CapabilitiesOwned(d)
    requires DistinctDevices(items) && AllHaveCategory(items)
    ensures var r := DevicesAfterLoad(d, loc, items);
      && ValidTable(r.devices) && ValidTable(r.capabilities) && CapabilitiesOwned(r)
      && r.devices.rows.Keys == d.devices.rows.Keys + DeviceIds(items)
      && (forall k :: k in KnownDevices(d.devices, loc) && k !in DeviceIds(items) ==>
            r.devices.rows[k] == d.devices.rows[k].(visible := 0))
      && (forall k :: k in d.devices.rows && k !in KnownDevices(d.devices, loc) && k !in DeviceIds(items) ==>
            r.devices.rows[k] == d.devices.rows[k])
      && (forall i :: 0 <= i < |items| && items[i].deviceId in d.devices.rows ==>
            r.devices.rows[items[i].deviceId] == RefreshedDevice(d.devices.rows[items[i].deviceId], items[i]))
      && (forall i :: 0 <= i < |items| && items[i].deviceId !in d.devices.rows ==>
            r.devices.rows[items[i].deviceId] == NewDevice(loc, items[i]))
      && (forall k :: k in d.capabilities.rows ==> k in r.capabilities.rows && r.capabilities.rows[k] == d.capabilities.rows[k])
      && (forall k :: k in r.capabilities.rows && k !in d.capabilities.rows <==> IsNewCapability(d, items, k))
      && (forall k :: k in r.capabilities.rows && k !in d.capabilities.rows ==> r.capabilities.rows[k] == NewCapability(loc))
  {
    UpsertDevicesRows(d, loc, items);
    UpsertDevicesCapabilities(d, loc, items);
    UpsertDevicesKeepsOwnership(d, loc, items);
    var r := DevicesAfterLoad(d, loc, items);
    forall k | IsNewCapability(d, items, k) ensures k !in d.capabilities.rows { }
  }

  /**
   * The list of known ids left after the upsert pass names exactly the
   * devices `loadDevices` hides, and all of them are rows of the upserted table.
   */
  lemma LoadDevicesPlan(d: DeviceTables, loc: string, items: seq<RemoteDevice>)
    requires ValidTable(d.devices) && ValidTable(d.capabilities) && CapabilitiesOwned(d)
    requires DistinctDevices(items) && AllHaveCategory(items)
    ensures var u := UpsertDevices(d, loc, items);
      var pending := Without(KnownDeviceList(d.devices, loc), DeviceIds(items));
      && (forall k :: k in pending ==> k in u.devices.rows)
      && u.(devices := HideDevices(u.devices, Elems(pending))) == DevicesAfterLoad(d, loc, items)
    ensures var r := DevicesAfterLoad(d, loc, items);
      ValidTable(r.devices) && ValidTable(r.capabilities) && CapabilitiesOwned(r)
  {
    var u := UpsertDevices(d, loc, items);
    var pending := Without(KnownDeviceList(d.devices, loc), DeviceIds(items));
    assert Elems(pending) == KnownDevices(d.devices, loc) - DeviceIds(items);
    assert forall k :: k in pending ==> k in u.devices.rows by {
      UpsertDevicesRows(d, loc, items);
    }
    LoadDevicesReconciles(d, loc, items);
  }

  // --------------------------------------------------------------- scenes

  /** The scenes of one location, in the order the platform listed them. */
  function ForLocation(items: seq<RemoteScene>, loc: string): (r: seq<RemoteScene>)
    ensures |r| <= |items|
  {
    if items == [] then []
    else
      var rest := ForLocation(items[..|items| - 1], loc);
      var last := items[|items| - 1];
      if last.locationId == loc then rest + [last] else rest
  }

  /** The filter keeps exactly the scenes of the location. */
  lemma {:induction false} ForLocationMembers(items: seq<RemoteScene>, loc: string)
    ensures forall s :: s in ForLocation(items, loc) <==> s in items && s.locationId == loc
  {
    if items != [] {
      var init := items[..|items| - 1];
      ForLocationMembers(init, loc);
      assert forall s :: s in items <==> s in init || s == items[|items| - 1];
    }
  }

  lemma {:induction false} ForLocationAppend(a: seq<RemoteScene>, b: seq<RemoteScene>, loc: string)
    ensures ForLocation(a + b, loc) == ForLocation(a, loc) + ForLocation(b, loc)
  {
    if b == [] {
      assert a + b == a;
    } else {
      var init := b[..|b| - 1];
      assert (a + b)[..|a + b| - 1] == a + init;
      assert (a + b)[|a + b| - 1] == b[|b| - 1];
      ForLocationAppend(a, init, loc);
    }
  }

  lemma UpsertScenesSnoc(t: Table<string, SceneRow>, loc: string, kept: seq<RemoteScene>, sc: RemoteScene)
    ensures UpsertScenes(t, loc, kept + [sc]) == UpsertScene(UpsertScenes(t, loc, kept), loc, sc)
  {
    assert (kept + [sc])[..|kept|] == kept;
  }

  function NewScene(loc: string, name: string): SceneRow {
    SceneRow(name, loc, 1, 99, None)
  }

  /** `update scene set name=? where scene_id=?`, else insert with visible=1 and seq=99. */
  function UpsertScene(t: Table<string, SceneRow>, loc: string, sc: RemoteScene): Table<string, SceneRow> {
    if sc.sceneId in t.rows then Replace(t, sc.sceneId, t.rows[sc.sceneId].(name := sc.sceneName))
    else Insert(t, sc.sceneId, NewScene(loc, sc.sceneName))
  }

  function UpsertScenes(t: Table<string, SceneRow>, loc: string, items: seq<RemoteScene>): Table<string, SceneRow> {
    if items == [] then t
    else UpsertScene(UpsertScenes(t, loc, items[..|items| - 1]), loc, items[|items| - 1])
  }

  function KnownScenes(t: Table<string, SceneRow>, loc: string): set<string> {
    set k | k in t.rows && t.rows[k].locationId == loc
  }

  /** The same ids as a list, in scan order: the list `loadAllScenes` starts from. */
  function KnownSceneList(t: Table<string, SceneRow>, loc: string): (r: seq<string>)
    ensures ValidTable(t) ==> forall k :: k in r <==> k in KnownScenes(t, loc)
    ensures Distinct(t.order) ==> Distinct(r)
  {
    Select(t, (k: string, row: SceneRow) => row.locationId == loc)
  }

  /** The scene table after a `loadAllScenes` pass whose fetch returned `items`. */
  function ScenesAfterLoad(t: Table<string, SceneRow>, loc: string, items: seq<RemoteScene>): Table<string, SceneRow> {
    var kept := ForLocation(items, loc);
    DeleteKeys(UpsertScenes(t, loc, kept), KnownScenes(t, loc) - SceneIds(kept))
  }

  predicate ScenesFitLocation(t: Table<string, SceneRow>, loc: string, items: seq<RemoteScene>) {
    forall i :: 0 <= i < |items| && items[i].sceneId in t.rows ==> t.rows[items[i].sceneId].locationId == loc
  }

  lemma SceneIdsSnoc(items: seq<RemoteScene>)
    requires items != []
    ensures SceneIds(items) == SceneIds(items[..|items| - 1]) + {items[|items| - 1].sceneId}
  {
    var init := items[..|items| - 1];
    forall k | k in SceneIds(items) ensures k in SceneIds(init) + {items[|items| - 1].sceneId} {
      var i :| 0 <= i < |items| && items[i].sceneId == k;
      if i < |init| { assert init[i] == items[i]; }
    }
    forall k | k in SceneIds(init) ensures k in SceneIds(items) {
      var i :| 0 <= i < |init| && init[i].sceneId == k;
      assert items[i] == init[i];
    }
  }

  lemma {:induction false} UpsertScenesKeys(t: Table<string, SceneRow>, loc: string, items: seq<RemoteScene>)
    ensures UpsertScenes(t, loc, items).rows.Keys == t.rows.Keys + SceneIds(items)
    ensures ValidTable(t) ==> ValidTable(UpsertScenes(t, loc, items))
  {
    if items != [] {
      UpsertScenesKeys(t, loc, items[..|items| - 1]);
      SceneIdsSnoc(items);
    }
  }

  lemma {:induction false} UpsertScenesRows(t: Table<string, SceneRow>, loc: string, items: seq<RemoteScene>)
    requires DistinctScenes(items)
    ensures UpsertScenes(t, loc, items).rows.Keys == t.rows.Keys + SceneIds(items)
    ensures forall k :: k in t.rows && k !in SceneIds(items) ==> UpsertScenes(t, loc, items).rows[k] == t.rows[k]
    ensures forall i :: 0 <= i < |items| ==>
      UpsertScenes(t, loc, items).rows[items[i].sceneId] ==
        if items[i].sceneId in t.rows then t.rows[items[i].sceneId].(name := items[i].sceneName)
        else NewScene(loc, items[i].sceneName)
  {
    UpsertScenesKeys(t, loc, items);
    if items != [] {
      var init, last := items[..|items| - 1], items[|items| - 1];
      DistinctScenesSplit(items, init, last, []);
      UpsertScenesRows(t, loc, init);
      UpsertScenesKeys(t, loc, init);
      SceneIdsSnoc(items);
      var t1 := UpsertScenes(t, loc, init);
      var r := UpsertScene(t1, loc, last);
      assert last.sceneId in t1.rows <==> last.sceneId in t.rows;
      forall i | 0 <= i < |items|
        ensures r.rows[items[i].sceneId] ==
          if items[i].sceneId in t.rows then t.rows[items[i].sceneId].(name := items[i].sceneName)
          else NewScene(loc, items[i].sceneName)
      {
        if i < |init| {
          assert items[i] == init[i];
        }
      }
    }
  }

  /**
   * The scene table after the upsert pass: the reported ids are added to the
   * keys; a known reported scene is renamed, a new one inserted for the
   * location; every other row is unchanged.
   */
  /**
   * One step of the scene loop of `loadAllScenes`, on values: a scene of
   * another location is skipped; one of this location extends the kept list,
   * is upserted, and leaves `pending` exactly when it matched a row, which is
   * always still pending.
   */
  lemma UpsertScenesPendingStep(t: Table<string, SceneRow>, loc: string, items: seq<RemoteScene>, i: nat)
    requires DistinctScenes(ForLocation(items, loc)) && ScenesFitLocation(t, loc, ForLocation(items, loc)) && i < |items|
    requires ValidTable(t)
    ensures var kept := ForLocation(items[..i], loc);
      ForLocation(items[..i + 1], loc) == if items[i].locationId == loc then kept + [items[i]] else kept
    ensures var kept := ForLocation(items[..i], loc);
      var sc := items[i];
      var pending := Without(KnownSceneList(t, loc), SceneIds(kept));
      sc.locationId == loc ==>
        && UpsertScenes(t, loc, kept + [sc]) == UpsertScene(UpsertScenes(t, loc, kept), loc, sc)
        && if sc.sceneId in UpsertScenes(t, loc, kept).rows
           then sc.sceneId in pending && Without(pending, {sc.sceneId}) == Without(KnownSceneList(t, loc), SceneIds(kept + [sc]))
           else pending == Without(KnownSceneList(t, loc), SceneIds(kept + [sc]))
  {
    var kept := ForLocation(items[..i], loc);
    var sc := items[i];
    ForLocationStep(items, i, loc);
    if sc.locationId == loc {
      KeptSceneFacts(t, loc, items, i);
      ScenePendingStep(t, loc, kept, sc);
    }
  }

  lemma ForLocationStep(items: seq<RemoteScene>, i: nat, loc: string)
    requires i < |items|
    ensures ForLocation(items[..i + 1], loc) ==
      if items[i].locationId == loc then ForLocation(items[..i], loc) + [items[i]] else ForLocation(items[..i], loc)
  {
    assert items[..i + 1] == items[..i] + [items[i]];
    ForLocationAppend(items[..i], [items[i]], loc);
    assert [items[i]][..0] == [];
  }

  /** A kept scene is new to the kept prefix before it, and a known row for it is of the location. */
  lemma KeptSceneFacts(t: Table<string, SceneRow>, loc: string, items: seq<RemoteScene>, i: nat)
    requires DistinctScenes(ForLocation(items, loc)) && ScenesFitLocation(t, loc, ForLocation(items, loc))
    requires i < |items| && items[i].locationId == loc
    ensures var kept := ForLocation(items[..i], loc);
      && DistinctScenes(kept) && items[i].sceneId !in SceneIds(kept)
      && (items[i].sceneId in t.rows ==> t.rows[items[i].sceneId].locationId == loc)
  {
    ForLocationSplit(items, i, loc);
    SceneSplitFacts(t, loc, ForLocation(items, loc), ForLocation(items[..i], loc), items[i], ForLocation(items[i + 1..], loc));
  }

  /** The filtered list around a kept scene: the kept scenes before it, it, the kept scenes after it. */
  lemma ForLocationSplit(items: seq<RemoteScene>, i: nat, loc: string)
    requires i < |items| && items[i].locationId == loc
    ensures ForLocation(items, loc) == ForLocation(items[..i], loc) + [items[i]] + ForLocation(items[i + 1..], loc)
  {
    var front, back := items[..i + 1], items[i + 1..];
    assert front + back == items;
    ForLocationAppend(front, back, loc);
    ForLocationStep(items, i, loc);
  }

  lemma SceneSplitFacts(t: Table<string, SceneRow>, loc: string, all: seq<RemoteScene>, kept: seq<RemoteScene>, sc: RemoteScene, rest: seq<RemoteScene>)
    requires all == kept + [sc] + rest
    requires DistinctScenes(all) && ScenesFitLocation(t, loc, all)
    ensures DistinctScenes(kept) && sc.sceneId !in SceneIds(kept)
    ensures sc.sceneId in t.rows ==> t.rows[sc.sceneId].locationId == loc
  {
    DistinctScenesSplit(all, kept, sc, rest);
    assert all[|kept|] == sc;
  }

  /** The scene step on the tables: upsert `sc` after `kept`, and update the pending list. */
  lemma ScenePendingStep(t: Table<string, SceneRow>, loc: string, kept: seq<RemoteScene>, sc: RemoteScene)
    requires DistinctScenes(kept) && sc.sceneId !in SceneIds(kept)
    requires sc.sceneId in t.rows ==> t.rows[sc.sceneId].locationId == loc
    requires ValidTable(t)
    ensures UpsertScenes(t, loc, kept + [sc]) == UpsertScene(UpsertScenes(t, loc, kept), loc, sc)
    ensures var pending := Without(KnownSceneList(t, loc), SceneIds(kept));
      if sc.sceneId in UpsertScenes(t, loc, kept).rows
      then sc.sceneId in pending && Without(pending, {sc.sceneId}) == Without(KnownSceneList(t, loc), SceneIds(kept + [sc]))
      else pending == Without(KnownSceneList(t, loc), SceneIds(kept + [sc]))
  {
    var before := SceneIds(kept);
    UpsertScenesKeys(t, loc, kept);
    UpsertScenesSnoc(t, loc, kept, sc);
    assert SceneIds(kept + [sc]) == before + {sc.sceneId} by {
      assert (kept + [sc])[..|kept|] == kept;
      SceneIdsSnoc(kept + [sc]);
    }
    WithoutTwice(KnownSceneList(t, loc), before, {sc.sceneId});
    if sc.sceneId !in UpsertScenes(t, loc, kept).rows {
      WithoutSame(KnownSceneList(t, loc), before, SceneIds(kept + [sc]));
    }
  }



  /**
   * The list of known ids left after the upsert pass names exactly the
   * scenes `loadAllScenes` deletes.
   */
  lemma LoadScenesPlan(t: Table<string, SceneRow>, loc: string, items: seq<RemoteScene>)
    requires ValidTable(t)
    ensures var kept := ForLocation(items, loc);
      var pending := Without(KnownSceneList(t, loc), SceneIds(kept));
      DeleteKeys(UpsertScenes(t, loc, kept), Elems(pending)) == ScenesAfterLoad(t, loc, items)
    ensures ValidTable(ScenesAfterLoad(t, loc, items))
  {
    var kept := ForLocation(items, loc);
    var pending := Without(KnownSceneList(t, loc), SceneIds(kept));
    assert Elems(pending) == KnownScenes(t, loc) - SceneIds(kept);
    ScenesAfterLoadKeys(t, loc, items);
  }

  /** The scene table after a load is well formed and holds the old ids plus the kept ones, less the dropped ones. */
  lemma ScenesAfterLoadKeys(t: Table<string, SceneRow>, loc: string, items: seq<RemoteScene>)
    requires ValidTable(t)
    ensures var kept := ForLocation(items, loc);
      var r := ScenesAfterLoad(t, loc, items);
      && ValidTable(r)
      && r.rows.Keys == (t.rows.Keys + SceneIds(kept)) - (KnownScenes(t, loc) - SceneIds(kept))
  {
    var kept := ForLocation(items, loc);
    UpsertScenesKeys(t, loc, kept);
    var u := UpsertScenes(t, loc, kept);
    var gone := KnownScenes(t, loc) - SceneIds(kept);
    assert DeleteKeys(u, gone).rows == u.rows - gone;
  }

  /**
   * `loadAllScenes` keeps only the scenes of the engine's location and
   * deletes outright every scene it knew for the location that the filtered
   * snapshot left out. Rows of other locations that were not reported stay; a
   * kept scene that was known gets only its name rewritten; a new one is
   * inserted for the location, visible with seq 99 and no guest access.
   */
  lemma LoadScenesReconciles(t: Table<string, SceneRow>, loc: string, items: seq<RemoteScene>)
    requires ValidTable(t) && DistinctScenes(ForLocation(items, loc))
    ensures var kept := ForLocation(items, loc);
      var r := ScenesAfterLoad(t, loc, items);
      && ValidTable(r)
      && r.rows.Keys == (t.rows.Keys + SceneIds(kept)) - (KnownScenes(t, loc) - SceneIds(kept))
      && (forall k :: k in t.rows && k !in KnownScenes(t, loc) && k !in SceneIds(kept) ==> r.rows[k] == t.rows[k])
      && (forall s :: s in kept && s.sceneId in t.rows ==> r.rows[s.sceneId] == t.rows[s.sceneId].(name := s.sceneName))
      && (forall s :: s in kept && s.sceneId !in t.rows ==> r.rows[s.sceneId] == SceneRow(s.sceneName, loc, 1, 99, None))
      && (forall k :: k in r.rows && k !in t.rows ==> r.rows[k].locationId == loc)
  {
    ScenesAfterLoadKeys(t, loc, items);
    LoadScenesKeepsOthers(t, loc, items);
    LoadScenesUpsertsKept(t, loc, items);
    LoadScenesNewAtLocation(t, loc, items);
  }

  lemma LoadScenesKeepsOthers(t: Table<string, SceneRow>, loc: string, items: seq<RemoteScene>)
    requires ValidTable(t) && DistinctScenes(ForLocation(items, loc))
    ensures var kept := ForLocation(items, loc);
      var r := ScenesAfterLoad(t, loc, items);
      forall k :: k in t.rows && k !in KnownScenes(t, loc) && k !in SceneIds(kept) ==> k in r.rows && r.rows[k] == t.rows[k]
  {
    var kept := ForLocation(items, loc);
    var u := UpsertScenes(t, loc, kept);
    UpsertScenesRows(t, loc, kept);
    assert DeleteKeys(u, KnownScenes(t, loc) - SceneIds(kept)).rows == u.rows - (KnownScenes(t, loc) - SceneIds(kept));
  }

  lemma LoadScenesUpsertsKept(t: Table<string, SceneRow>, loc: string, items: seq<RemoteScene>)
    requires ValidTable(t) && DistinctScenes(ForLocation(items, loc))
    ensures var kept := ForLocation(items, loc);
      var r := ScenesAfterLoad(t, loc, items);
      forall s :: s in kept ==>
        && s.sceneId in r.rows
        && r.rows[s.sceneId] == (if s.sceneId in t.rows then t.rows[s.sceneId].(name := s.sceneName) else NewScene(loc, s.sceneName))
  {
    var kept := ForLocation(items, loc);
    var u := UpsertScenes(t, loc, kept);
    var r := ScenesAfterLoad(t, loc, items);
    UpsertScenesRows(t, loc, kept);
    assert r.rows == u.rows - (KnownScenes(t, loc) - SceneIds(kept));
    forall s | s in kept
      ensures s.sceneId in r.rows
      ensures r.rows[s.sceneId] == if s.sceneId in t.rows then t.rows[s.sceneId].(name := s.sceneName) else NewScene(loc, s.sceneName)
    {
      var i :| 0 <= i < |kept| && kept[i] == s;
    }
  }

  lemma LoadScenesNewAtLocation(t: Table<string, SceneRow>, loc: string, items: seq<RemoteScene>)
    requires ValidTable(t) && DistinctScenes(ForLocation(items, loc))
    ensures var r := ScenesAfterLoad(t, loc, items);
      forall k :: k in r.rows && k !in t.rows ==> r.rows[k].locationId == loc
  {
    var kept := ForLocation(items, loc);
    var u := UpsertScenes(t, loc, kept);
    var r := ScenesAfterLoad(t, loc, items);
    UpsertScenesRows(t, loc, kept);
    assert r.rows == u.rows - (KnownScenes(t, loc) - SceneIds(kept));
    forall k | k in r.rows && k !in t.rows ensures r.rows[k].locationId == loc {
      var i :| 0 <= i < |kept| && kept[i].sceneId == k;
    }
  }

  /**
   * A scene that a Guest could run and that disappears from the platform is
   * gone from the store after the next scene load: it has no row left to
   * grant access.
   */
  lemma DroppedSceneIsDeleted(t: Table<string, SceneRow>, loc: string, items: seq<RemoteScene>, id: string)
    requires ValidTable(t)
    requires id in t.rows && t.rows[id].locationId == loc
    requires forall s :: s in items && s.locationId == loc ==> s.sceneId != id
    ensures id !in ScenesAfterLoad(t, loc, items).rows
  {
    var kept := ForLocation(items, loc);
    assert id !in SceneIds(kept) by {
      ForLocationMembers(items, loc);
      forall i | 0 <= i < |kept| ensures kept[i].sceneId != id {
        assert kept[i] in kept;
      }
    }
    ScenesAfterLoadKeys(t, loc, items);
  }
}
