/**
 * The `SmartThings` engine: the live view served to the browser (presence
 * devices, rooms with their devices, scenes) and the store behind it. Its
 * methods reconcile the store against platform snapshots, rebuild the view
 * from the store, refresh device status and health, and apply device events.
 * Every platform answer is a parameter: None stands for a reply other than 200.
 */
module Engine {
  import opened Wrappers
  import opened Values
  import opened Capabilities
  import opened Store
  import opened Remote
  import opened Reconcile
  import opened LiveView
  import opened Events
  import opened Refresh

  class SmartThings {
    const locationId: string
    const db: Database
    /** `self.location['presence']`. */
    var presence: seq<LiveDevice>
    /** `self.location['rooms']`. */
    var rooms: seq<LiveRoom>
    /** `self.location['scenes']`. */
    var scenes: seq<LiveScene>

    /** An engine for one location over a store, with an empty live view. */
    constructor (locationId: string, db: Database)
      ensures this.locationId == locationId && this.db == db
      ensures presence == [] && rooms == [] && scenes == []
    {
      this.locationId := locationId;
      this.db := db;
      presence, rooms, scenes := [], [], [];
    }

    // --------------------------------------------------------- reading the store

    /** `readRooms`: the visible rooms of the location, each with no devices yet. */
    method ReadRooms() returns (ok: bool)
      modifies this`rooms
      ensures rooms == VisibleRooms(db.rooms, locationId)
      ensures ok == (|RoomScan(db.rooms, locationId)| > 0)
    {
      var ids := RoomScan(db.rooms, locationId);
      rooms, ok := [], false;
      var i := 0;
      while i < |ids|
        invariant 0 <= i <= |ids|
        invariant rooms == RoomViews(db.rooms, ids[..i])
        invariant ok == (i > 0)
      {
        assert ids[..i + 1][..i] == ids[..i];
        rooms := rooms + [RoomView(ids[i], db.rooms.rows[ids[i]])];
        ok := true;
        i := i + 1;
      }
      assert ids[..i] == ids;
    }

    /** `readAllScenes`: the visible scenes of the location, read back whole from the store. */
    method ReadAllScenes() returns (ok: bool)
      modifies this`scenes
      ensures scenes == VisibleScenes(db.scenes, locationId)
      ensures ok == (|SceneScan(db.scenes, locationId)| > 0)
    {
      var ids := SceneScan(db.scenes, locationId);
      scenes, ok := [], false;
      var i := 0;
      while i < |ids|
        invariant 0 <= i <= |ids|
        invariant scenes == StoredScenesOf(db.scenes, ids[..i])
        invariant ok == (i > 0)
      {
        StoredScenesStep(db.scenes, ids, i);
        scenes := scenes + [StoredScene(ids[i], db.scenes.rows[ids[i]])];
        ok := true;
        i := i + 1;
      }
      assert ids[..i] == ids;
    }

    /** `room['devices'] = []` for every room of the view. */
    method ClearRoomDevices()
      modifies this`rooms
      ensures rooms == ClearDevices(old(rooms))
    {
      ghost var spec := ClearDevices(rooms);
      var i := 0;
      while i < |rooms|
        invariant 0 <= i <= |rooms| && |rooms| == |spec|
        invariant forall k :: 0 <= k < |rooms| ==> rooms[k] == if k < i then spec[k] else old(rooms)[k]
      {
        rooms := rooms[i := rooms[i].(devices := [])];
        i := i + 1;
      }
    }

    /** `room['devices'].append(device)` for every room of the view whose id is `roomId`. */
    method AppendToRoom(roomId: string, dev: LiveDevice)
      modifies this`rooms
      ensures rooms == AppendToRooms(old(rooms), roomId, dev)
    {
      ghost var spec := AppendToRooms(rooms, roomId, dev);
      var i := 0;
      while i < |rooms|
        invariant 0 <= i <= |rooms| && |rooms| == |spec|
        invariant forall k :: 0 <= k < |rooms| ==> rooms[k] == if k < i then spec[k] else old(rooms)[k]
      {
        if rooms[i].roomId == roomId {
          rooms := rooms[i := rooms[i].(devices := rooms[i].devices + [dev])];
        }
        i := i + 1;
      }
    }

    /**
     * The capability scan of one device: the visible capabilities on the
     * allow-list, in scan order, and whether the scan returned any row at all.
     */
    method ScanCapabilities(deviceId: string) returns (caps: seq<LiveCap>, any: bool)
      ensures caps == DeviceCaps(db.capabilities, deviceId)
      ensures any == (|CapScan(db.capabilities, deviceId)| > 0)
    {
      var keys := CapScan(db.capabilities, deviceId);
      caps, any := [], false;
      var j := 0;
      while j < |keys|
        invariant 0 <= j <= |keys|
        invariant caps == AllowedCaps(db.capabilities, keys[..j])
        invariant any == (j > 0)
      {
        AllowedCapsStep(db.capabilities, keys, j);
        any := true;
        var k := keys[j];
        if k.capabilityId in CapList {
          caps := caps + [CapView(k, db.capabilities.rows[k])];
        }
        j := j + 1;
      }
      assert keys[..j] == keys;
    }

    /**
     * One device of the scan loop of `readDevices`: its allowed capabilities
     * are read, and it is appended to presence or to its room when it has one.
     */
    method PlaceDevice(id: string) returns (any: bool)
      requires id in db.devices.rows
      modifies this`presence, this`rooms
      ensures Tree(presence, rooms) ==
        Place(old(Tree(presence, rooms)), ViewOf(db.devices, db.capabilities, id), SlotOfId(db.devices, db.capabilities, id))
      ensures any == (|CapScan(db.capabilities, id)| > 0)
    {
      var row := db.devices.rows[id];
      var caps;
      caps, any := ScanCapabilities(id);
      var dev := DeviceView(id, row, caps);
      if |caps| > 0 && row.roomId == NoRoom {
        presence := presence + [dev];
      } else if |caps| > 0 {
        AppendToRoom(row.roomId, dev);
      }
    }

    /**
     * `readDevices`: presence is rebuilt and every room's device list is
     * rebuilt from the visible devices of the location; the result is true when
     * some scanned device has a visible capability row.
     */
    method ReadDevices() returns (ok: bool)
      modifies this`presence, this`rooms
      ensures Tree(presence, rooms) == DevicesView(db.devices, db.capabilities, locationId, old(rooms))
      ensures ok == AnyVisibleCapability(db.capabilities, DeviceScan(db.devices, locationId))
    {
      presence := [];
      ClearRoomDevices();
      ghost var start := Tree([], rooms);
      var ids := DeviceScan(db.devices, locationId);
      ok := false;
      var i := 0;
      while i < |ids|
        invariant 0 <= i <= |ids|
        invariant Tree(presence, rooms) == PlaceAll(db.devices, db.capabilities, ids[..i], start)
        invariant ok == AnyVisibleCapability(db.capabilities, ids[..i])
      {
        PlaceAllStep(db.devices, db.capabilities, ids, i, start);
        var any := PlaceDevice(ids[i]);
        ok := ok || any;
        i := i + 1;
      }
      assert ids[..i] == ids;
    }

    // ------------------------------------------------------------- device events

    /**
     * `updateDevice`. A presence event sets the state of every matching
     * presence capability and is emitted whenever one matched, even when the
     * state did not change. Any other event goes through the rooms and is
     * emitted only when the first match held a different state. The store
     * row is written exactly when something is emitted.
     */
    method UpdateDevice(deviceId: string, capability: string, value: Value, now: string) returns (emit: Option<Emission>)
      requires db.Valid()
      modifies this`presence, this`rooms, db`capabilities
      ensures db.Valid()
      ensures capability == PresenceSensor ==>
        && presence == SetStateInDevices(old(presence), deviceId, capability, value)
        && rooms == old(rooms)
        && emit == if FirstInDevices(old(presence), deviceId, capability).Some?
                   then Some(Emission("presence_chg", deviceId, capability, value)) else None
      ensures capability != PresenceSensor ==>
        presence == old(presence) && (rooms, emit) == RoomEvent(old(rooms), deviceId, capability, value)
      ensures db.capabilities == if emit.Some? then WriteStatus(old(db.capabilities), CapKey(deviceId, capability), value, now)
                                 else old(db.capabilities)
    {
      emit := None;
      var write := false;
      if capability == PresenceSensor {
        var devs, flag, wrote, found := SetInDevices(presence, deviceId, capability, value, true);
        presence := devs;
        if found {
          write := true;
          emit := Some(Emission("presence_chg", deviceId, capability, value));
        }
      } else {
        var rs, wrote := SetInRooms(rooms, deviceId, capability, value);
        rooms := rs;
        if wrote {
          write := true;
          emit := Some(Emission("device_chg", deviceId, capability, value));
        }
      }
      if write {
        db.capabilities := WriteStatus(db.capabilities, CapKey(deviceId, capability), value, now);
      }
    }

    /**
     * `updateDeviceHealth`. With any presence device in the view the presence
     * loop reads a `devices` key presence entries do not have, and the call
     * raises before touching anything. Otherwise the first device of the rooms
     * with the id takes the health, its row is written, and the result says
     * whether any room held the device.
     */
    method UpdateDeviceHealth(deviceId: string, health: string) returns (r: Outcome<bool>)
      requires db.Valid()
      modifies this`rooms, db`devices
      ensures db.Valid()
      ensures |presence| > 0 ==> r == Raised(KeyError("devices")) && rooms == old(rooms) && db.devices == old(db.devices)
      ensures |presence| == 0 ==>
        && rooms == HealthAfter(old(rooms), deviceId, health)
        && r.Returned?
        && (r.value <==> exists i, j :: 0 <= i < |old(rooms)| && 0 <= j < |old(rooms)[i].devices| && old(rooms)[i].devices[j].deviceId == deviceId)
        && db.devices == if r.value then WriteHealth(old(db.devices), deviceId, health) else old(db.devices)
    {
      if |presence| > 0 {
        return Raised(KeyError("devices"));
      }
      var rs, found := SetHealthInRooms(rooms, deviceId, health);
      rooms := rs;
      if found {
        db.devices := WriteHealth(db.devices, deviceId, health);
      }
      r := Returned(found);
    }

    // -------------------------------------------------------- status and health

    /**
     * `loadAllDevicesStatus`: every presence device and every room device
     * whose status fetch answered takes the values its reply reports for its
     * shown capabilities, and those rows are written. Only presence entries
     * are stamped in the view, and only a room device's hit makes the result
     * true.
     */
    method LoadAllDevicesStatus(fetch: string -> Option<StatusReply>, now: string) returns (ok: bool)
      requires db.Valid()
      modifies this`presence, this`rooms, db`capabilities
      ensures db.Valid()
      ensures presence == RefreshDevices(old(presence), fetch, now, true)
      ensures rooms == RefreshRooms(old(rooms), fetch, now)
      ensures db.capabilities == StatusRowsRooms(StatusRowsAll(old(db.capabilities), old(presence), fetch, now), old(rooms), fetch, now)
      ensures ok == AnyRoomHit(old(rooms), fetch)
    {
      var devs, presenceHit := RefreshList(db, presence, fetch, now, true);
      presence := devs;
      var rs, roomHit := RefreshRoomList(db, rooms, fetch, now);
      rooms := rs;
      ok := roomHit;
      StatusRowsAllKeys(old(db.capabilities), old(presence), fetch, now);
      StatusRowsRoomsKeys(StatusRowsAll(old(db.capabilities), old(presence), fetch, now), old(rooms), fetch, now);
    }

    /**
     * `loadAllDevicesHealth`: every presence and room device whose health
     * fetch answered takes that health in the view and in its row; the result
     * is true when any fetch answered.
     */
    method LoadAllDevicesHealth(fetch: string -> Option<string>) returns (ok: bool)
      requires db.Valid()
      modifies this`presence, this`rooms, db`devices
      ensures db.Valid()
      ensures presence == HealthDevices(old(presence), fetch)
      ensures rooms == HealthRooms(old(rooms), fetch)
      ensures db.devices == HealthRowsRooms(HealthRows(old(db.devices), old(presence), fetch), old(rooms), fetch)
      ensures ok == (AnyAnswered(old(presence), fetch) || AnyRoomAnswered(old(rooms), fetch))
    {
      var devs, a := HealthList(db, presence, fetch);
      presence := devs;
      var rs, b := HealthRoomList(db, rooms, fetch);
      rooms := rs;
      ok := a || b;
      HealthRowsKeys(old(db.devices), old(presence), fetch);
      HealthRowsRoomsKeys(HealthRows(old(db.devices), old(presence), fetch), old(rooms), fetch);
    }

    // ------------------------------------------------------ reconciling the store

    /**
     * The upsert loop of `loadRooms`: each reported room is updated by id or
     * inserted, and an updated id leaves the list of the location's known
     * rooms still pending.
     */
    method UpsertRoomRows(items: seq<RemoteRoom>) returns (pending: seq<string>)
      requires ValidTable(db.rooms)
      requires DistinctRooms(items) && RoomsFitLocation(db.rooms, locationId, items)
      modifies db`rooms
      ensures db.rooms == UpsertRooms(old(db.rooms), locationId, items)
      ensures pending == Without(KnownRoomList(old(db.rooms), locationId), RoomIds(items))
    {
      ghost var t0 := db.rooms;
      pending := KnownRoomList(db.rooms, locationId);
      ghost var p0 := pending;
      assert RoomIds(items[..0]) == {};
      WithoutNothing(p0);
      var i := 0;
      while i < |items|
        invariant 0 <= i <= |items|
        invariant db.rooms == UpsertRooms(t0, locationId, items[..i])
        invariant pending == Without(p0, RoomIds(items[..i]))
      {
        var rm := items[i];
        UpsertRoomsPendingStep(t0, locationId, items, i);
        if rm.roomId in db.rooms.rows {
          db.rooms := Replace(db.rooms, rm.roomId, db.rooms.rows[rm.roomId].(name := rm.name));
          pending := Without(pending, {rm.roomId});
        } else {
          db.rooms := Insert(db.rooms, rm.roomId, NewRoom(locationId, rm.name));
        }
        i := i + 1;
      }
      assert items[..i] == items;
    }

    /** `update room set visible=0` for each room id of `ids`. */
    method HideRoomRows(ids: seq<string>)
      requires forall k :: k in ids ==> k in db.rooms.rows
      modifies db`rooms
      ensures db.rooms == HideRooms(old(db.rooms), Elems(ids))
    {
      ghost var u := db.rooms;
      assert HideRooms(u, Elems(ids[..0])).rows == u.rows;
      var j := 0;
      while j < |ids|
        invariant 0 <= j <= |ids|
        invariant db.rooms == HideRooms(u, Elems(ids[..j]))
      {
        var id := ids[j];
        HideRoomsStep(u, Elems(ids[..j]), id);
        assert ids[..j + 1] == ids[..j] + [id];
        assert Elems(ids[..j + 1]) == Elems(ids[..j]) + {id};
        db.rooms := Replace(db.rooms, id, db.rooms.rows[id].(visible := 0));
        j := j + 1;
      }
      assert ids[..j] == ids;
    }

    /**
     * `loadRooms`. On a 200 reply every reported room is upserted by id, and
     * the rooms the location knew that the reply left out are hidden. On any
     * other reply nothing changes and the result is false.
     */
    method LoadRooms(fetch: Option<seq<RemoteRoom>>) returns (ok: bool)
      requires db.Valid()
      requires fetch.Some? ==> DistinctRooms(fetch.value) && RoomsFitLocation(db.rooms, locationId, fetch.value)
      modifies db`rooms
      ensures db.Valid()
      ensures ok == fetch.Some?
      ensures db.rooms == if fetch.Some? then RoomsAfterLoad(old(db.rooms), locationId, fetch.value) else old(db.rooms)
    {
      if fetch.None? {
        return false;
      }
      ReconcileRooms(fetch.value);
      ok := true;
    }

    /** The two passes of `loadRooms` on a 200 reply: upsert every reported room, hide the rest. */
    method ReconcileRooms(items: seq<RemoteRoom>)
      requires ValidTable(db.rooms)
      requires DistinctRooms(items) && RoomsFitLocation(db.rooms, locationId, items)
      modifies db`rooms
      ensures db.rooms == RoomsAfterLoad(old(db.rooms), locationId, items)
      ensures ValidTable(db.rooms)
    {
      LoadRoomsPlan(db.rooms, locationId, items);
      var pending := UpsertRoomRows(items);
      HideRoomRows(pending);
    }

    /**
     * The capability inserts of a first-seen device: one row per capability
     * of each component, in component order.
     */
    method InsertCapabilityRows(deviceId: string, comps: seq<Component>)
      requires forall k :: k in db.capabilities.rows ==> k.deviceId != deviceId
      requires DistinctStrings(AllCapabilities(comps))
      modifies db`capabilities
      ensures db.capabilities == InsertCapabilities(old(db.capabilities), locationId, deviceId, AllCapabilities(comps))
    {
      ghost var c0 := db.capabilities;
      assert comps[..0] == [];
      var c := 0;
      while c < |comps|
        invariant 0 <= c <= |comps|
        invariant db.capabilities == InsertCapabilities(c0, locationId, deviceId, AllCapabilities(comps[..c]))
      {
        var caps := comps[c].capabilities;
        ComponentStep(comps, c);
        var j := 0;
        while j < |caps|
          invariant 0 <= j <= |caps|
          invariant db.capabilities == InsertCapabilities(c0, locationId, deviceId, AllCapabilities(comps[..c]) + caps[..j])
        {
          InsertCapabilityStep(c0, locationId, deviceId, comps, c, j);
          db.capabilities := Insert(db.capabilities, CapKey(deviceId, caps[j]), NewCapability(locationId));
          j := j + 1;
        }
        c := c + 1;
      }
      assert comps[..c] == comps;
    }

    /** One reported device of `loadDevices`: the update by id, or the insert with its capability rows. */
    method UpsertDeviceRow(dev: RemoteDevice)
      requires HasCategory(dev) && CapabilitiesOwned(DeviceTables(db.devices, db.capabilities))
      requires dev.deviceId !in db.devices.rows ==> DistinctStrings(AllCapabilities(dev.components))
      modifies db`devices, db`capabilities
      ensures DeviceTables(db.devices, db.capabilities) == UpsertDevice(old(DeviceTables(db.devices, db.capabilities)), locationId, dev)
    {
      if dev.deviceId in db.devices.rows {
        db.devices := Replace(db.devices, dev.deviceId, RefreshedDevice(db.devices.rows[dev.deviceId], dev));
      } else {
        db.devices := Insert(db.devices, dev.deviceId, NewDevice(locationId, dev));
        InsertCapabilityRows(dev.deviceId, dev.components);
      }
    }

    /** The upsert loop of `loadDevices`, with the location's known devices still pending. */
    method UpsertDeviceRows(items: seq<RemoteDevice>) returns (pending: seq<string>)
      requires ValidTable(db.devices)
      requires CapabilitiesOwned(DeviceTables(db.devices, db.capabilities))
      requires DistinctDevices(items) && AllHaveCategory(items)
      requires DevicesFitLocation(db.devices, locationId, items) && NewDevicesListCapabilitiesOnce(db.devices, items)
      modifies db`devices, db`capabilities
      ensures DeviceTables(db.devices, db.capabilities) == UpsertDevices(old(DeviceTables(db.devices, db.capabilities)), locationId, items)
      ensures pending == Without(KnownDeviceList(old(db.devices), locationId), DeviceIds(items))
    {
      ghost var d0 := DeviceTables(db.devices, db.capabilities);
      pending := KnownDeviceList(db.devices, locationId);
      ghost var p0 := pending;
      assert DeviceIds(items[..0]) == {};
      WithoutNothing(p0);
      var i := 0;
      while i < |items|
        invariant 0 <= i <= |items|
        invariant AllHaveCategory(items[..i])
        invariant DeviceTables(db.devices, db.capabilities) == UpsertDevices(d0, locationId, items[..i])
        invariant pending == Without(p0, DeviceIds(items[..i]))
      {
        var dev := items[i];
        UpsertDevicesPendingStep(d0, locationId, items, i);
        if dev.deviceId in db.devices.rows {
          pending := Without(pending, {dev.deviceId});
        }
        UpsertDeviceRow(dev);
        i := i + 1;
      }
      assert items[..i] == items;
    }

    /** `update device set visible=0` for each device id of `ids`. */
    method HideDeviceRows(ids: seq<string>)
      requires forall k :: k in ids ==> k in db.devices.rows
      modifies db`devices
      ensures db.devices == HideDevices(old(db.devices), Elems(ids))
    {
      ghost var u := db.devices;
      assert HideDevices(u, Elems(ids[..0])).rows == u.rows;
      var j := 0;
      while j < |ids|
        invariant 0 <= j <= |ids|
        invariant db.devices == HideDevices(u, Elems(ids[..j]))
      {
        var id := ids[j];
        HideDevicesStep(u, Elems(ids[..j]), id);
        assert ids[..j + 1] == ids[..j] + [id];
        assert Elems(ids[..j + 1]) == Elems(ids[..j]) + {id};
        db.devices := Replace(db.devices, id, db.devices.rows[id].(visible := 0));
        j := j + 1;
      }
      assert ids[..j] == ids;
    }

    /**
     * `loadDevices`. On a 200 reply every reported device is upserted by id
     * (a new one with its capability rows), and the devices the location knew
     * that the reply left out are hidden; the result is true when the reply
     * listed any device. On any other reply nothing changes and the result is
     * false.
     */
    method LoadDevices(fetch: Option<seq<RemoteDevice>>) returns (ok: bool)
      requires db.Valid()
      requires fetch.Some? ==>
        && DistinctDevices(fetch.value) && AllHaveCategory(fetch.value)
        && DevicesFitLocation(db.devices, locationId, fetch.value)
        && NewDevicesListCapabilitiesOnce(db.devices, fetch.value)
      modifies db`devices, db`capabilities
      ensures db.Valid()
      ensures ok == (fetch.Some? && |fetch.value| > 0)
      ensures fetch.None? ==> db.devices == old(db.devices) && db.capabilities == old(db.capabilities)
      ensures fetch.Some? ==>
        DeviceTables(db.devices, db.capabilities) == DevicesAfterLoad(DeviceTables(old(db.devices), old(db.capabilities)), locationId, fetch.value)
    {
      if fetch.None? {
        return false;
      }
      ReconcileDevices(fetch.value);
      ok := |fetch.value| > 0;
    }

    /** The two passes of `loadDevices` on a 200 reply: upsert every reported device, hide the rest. */
    method ReconcileDevices(items: seq<RemoteDevice>)
      requires ValidTable(db.devices) && ValidTable(db.capabilities)
      requires CapabilitiesOwned(DeviceTables(db.devices, db.capabilities))
      requires DistinctDevices(items) && AllHaveCategory(items)
      requires DevicesFitLocation(db.devices, locationId, items) && NewDevicesListCapabilitiesOnce(db.devices, items)
      modifies db`devices, db`capabilities
      ensures DeviceTables(db.devices, db.capabilities) == DevicesAfterLoad(old(DeviceTables(db.devices, db.capabilities)), locationId, items)
      ensures ValidTable(db.devices) && ValidTable(db.capabilities)
      ensures CapabilitiesOwned(DeviceTables(db.devices, db.capabilities))
    {
      LoadDevicesPlan(DeviceTables(db.devices, db.capabilities), locationId, items);
      var pending := UpsertDeviceRows(items);
      HideDeviceRows(pending);
    }

    /**
     * One scene of the `loadAllScenes` loop that belongs to the location: it
     * is appended to the live scenes, and its row is renamed when known and
     * inserted otherwise; `matched` says which.
     */
    method UpsertSceneRow(sc: RemoteScene) returns (matched: bool)
      modifies this`scenes, db`scenes
      ensures scenes == old(scenes) + [Fetched(sc.sceneId, sc.sceneName)]
      ensures db.scenes == UpsertScene(old(db.scenes), locationId, sc)
      ensures matched == (sc.sceneId in old(db.scenes).rows)
    {
      scenes := scenes + [Fetched(sc.sceneId, sc.sceneName)];
      matched := sc.sceneId in db.scenes.rows;
      if matched {
        db.scenes := Replace(db.scenes, sc.sceneId, db.scenes.rows[sc.sceneId].(name := sc.sceneName));
      } else {
        db.scenes := Insert(db.scenes, sc.sceneId, NewScene(locationId, sc.sceneName));
      }
    }

    /**
     * The scene loop of `loadAllScenes`: the scenes of other locations are
     * skipped; each scene of this location is listed in the view and upserted
     * by id, an updated id leaving the location's known scenes still pending.
     */
    method UpsertSceneRows(items: seq<RemoteScene>) returns (pending: seq<string>)
      requires ValidTable(db.scenes)
      requires var kept := ForLocation(items, locationId);
        DistinctScenes(kept) && ScenesFitLocation(db.scenes, locationId, kept)
      modifies this`scenes, db`scenes
      ensures scenes == FetchedScenes(ForLocation(items, locationId))
      ensures db.scenes == UpsertScenes(old(db.scenes), locationId, ForLocation(items, locationId))
      ensures pending == Without(KnownSceneList(old(db.scenes), locationId),
                                 SceneIds(ForLocation(items, locationId)))
    {
      ghost var t0 := db.scenes;
      pending := KnownSceneList(db.scenes, locationId);
      ghost var p0 := pending;
      scenes := [];
      assert items[..0] == [];
      assert SceneIds(ForLocation(items[..0], locationId)) == {};
      WithoutNothing(p0);
      var i := 0;
      while i < |items|
        invariant 0 <= i <= |items|
        invariant scenes == FetchedScenes(ForLocation(items[..i], locationId))
        invariant db.scenes == UpsertScenes(t0, locationId, ForLocation(items[..i], locationId))
        invariant pending == Without(p0, SceneIds(ForLocation(items[..i], locationId)))
      {
        ghost var kept := ForLocation(items[..i], locationId);
        var sc := items[i];
        UpsertScenesPendingStep(t0, locationId, items, i);
        if sc.locationId == locationId {
          FetchedScenesSnoc(kept, sc);
          var matched := UpsertSceneRow(sc);
          if matched {
            pending := Without(pending, {sc.sceneId});
          }
        }
        i := i + 1;
      }
      assert items[..i] == items;
    }

    /** `delete from scene where scene_id=?` for each scene id of `ids`. */
    method DeleteSceneRows(ids: seq<string>)
      modifies db`scenes
      ensures db.scenes == DeleteKeys(old(db.scenes), Elems(ids))
    {
      ghost var u := db.scenes;
      DeleteKeysNone(u);
      assert Elems(ids[..0]) == {};
      var j := 0;
      while j < |ids|
        invariant 0 <= j <= |ids|
        invariant db.scenes == DeleteKeys(u, Elems(ids[..j]))
      {
        var id := ids[j];
        DeleteKeysTwice(u, Elems(ids[..j]), {id});
        assert ids[..j + 1] == ids[..j] + [id];
        assert Elems(ids[..j + 1]) == Elems(ids[..j]) + {id};
        db.scenes := DeleteKeys(db.scenes, {id});
        j := j + 1;
      }
      assert ids[..j] == ids;
    }

    /** The scene half of `loadAllScenes` once the reply is in: upsert, then delete what was left out. */
    method ReconcileScenes(items: seq<RemoteScene>)
      requires ValidTable(db.scenes)
      requires var kept := ForLocation(items, locationId);
        DistinctScenes(kept) && ScenesFitLocation(db.scenes, locationId, kept)
      modifies this`scenes, db`scenes
      ensures scenes == FetchedScenes(ForLocation(items, locationId))
      ensures db.scenes == ScenesAfterLoad(old(db.scenes), locationId, items)
      ensures ValidTable(db.scenes)
    {
      ghost var t0 := db.scenes;
      var pending := UpsertSceneRows(items);
      DeleteSceneRows(pending);
      LoadScenesPlan(t0, locationId, items);
    }

    /**
     * `loadAllScenes`. On a 200 reply the view's scene list becomes the
     * reported scenes of this location, each is upserted by id, and the
     * location's stored scenes the filtered reply left out are deleted. On
     * any other reply nothing changes and the result is false.
     */
    method LoadAllScenes(fetch: Option<seq<RemoteScene>>) returns (ok: bool)
      requires db.Valid()
      requires fetch.Some? ==>
        var kept := ForLocation(fetch.value, locationId);
        DistinctScenes(kept) && ScenesFitLocation(db.scenes, locationId, kept)
      modifies this`scenes, db`scenes
      ensures db.Valid()
      ensures ok == fetch.Some?
      ensures fetch.None? ==> scenes == old(scenes) && db.scenes == old(db.scenes)
      ensures fetch.Some? ==>
        && scenes == FetchedScenes(ForLocation(fetch.value, locationId))
        && db.scenes == ScenesAfterLoad(old(db.scenes), locationId, fetch.value)
    {
      if fetch.None? {
        return false;
      }
      ReconcileScenes(fetch.value);
      ok := true;
    }

    // ----------------------------------------------------------------- drivers

    /**
     * `loadData`: location, app config, rooms and devices, each step run only
     * when the one before it succeeded. `locationLoaded` and `appConfigLoaded`
     * are the results of `loadLocation` and `loadAppConfig`, whose own tables
     * are not part of this model.
     */
    method LoadData(locationLoaded: bool, appConfigLoaded: bool,
                    roomsFetch: Option<seq<RemoteRoom>>, devicesFetch: Option<seq<RemoteDevice>>)
      returns (ok: bool)
      requires db.Valid()
      requires locationLoaded && appConfigLoaded && roomsFetch.Some? ==>
        DistinctRooms(roomsFetch.value) && RoomsFitLocation(db.rooms, locationId, roomsFetch.value)
      requires locationLoaded && appConfigLoaded && roomsFetch.Some? && devicesFetch.Some? ==>
        && DistinctDevices(devicesFetch.value) && AllHaveCategory(devicesFetch.value)
        && DevicesFitLocation(db.devices, locationId, devicesFetch.value)
        && NewDevicesListCapabilitiesOnce(db.devices, devicesFetch.value)
      modifies db`rooms, db`devices, db`capabilities
      ensures db.Valid()
      ensures ok == (locationLoaded && appConfigLoaded && roomsFetch.Some? && devicesFetch.Some? && |devicesFetch.value| > 0)
      ensures db.rooms ==
        if locationLoaded && appConfigLoaded && roomsFetch.Some? then RoomsAfterLoad(old(db.rooms), locationId, roomsFetch.value)
        else old(db.rooms)
      ensures DeviceTables(db.devices, db.capabilities) ==
        if locationLoaded && appConfigLoaded && roomsFetch.Some? && devicesFetch.Some?
        then DevicesAfterLoad(DeviceTables(old(db.devices), old(db.capabilities)), locationId, devicesFetch.value)
        else DeviceTables(old(db.devices), old(db.capabilities))
    {
      ok := false;
      if locationLoaded && appConfigLoaded {
        var roomsOk := LoadRooms(roomsFetch);
        if roomsOk {
          ok := LoadDevices(devicesFetch);
        }
      }
    }

    /**
     * The first two steps of the refresh branch of `readData`: device status,
     * then device health only when the status pass reached a room device.
     */
    method StatusAndHealth(statusFetch: string -> Option<StatusReply>, now: string, healthFetch: string -> Option<string>)
      returns (ok: bool)
      requires db.Valid()
      modifies this`presence, this`rooms, db`capabilities, db`devices
      ensures db.Valid()
      ensures (Snapshot(presence, rooms, db.capabilities, db.devices), ok)
        == RefreshPass(old(Snapshot(presence, rooms, db.capabilities, db.devices)), statusFetch, now, healthFetch)
    {
      ghost var s0 := Snapshot(presence, rooms, db.capabilities, db.devices);
      ok := LoadAllDevicesStatus(statusFetch, now);
      ghost var s1 := Snapshot(presence, rooms, db.capabilities, db.devices);
      assert s1 == StatusPass(s0, statusFetch, now);
      if ok {
        ok := LoadAllDevicesHealth(healthFetch);
        assert (Snapshot(presence, rooms, db.capabilities, db.devices), ok) == HealthPass(s1, healthFetch);
      }
    }

    /**
     * The refresh branch of `readData`: status and health, then scenes only
     * when health succeeded; true when all three did.
     */
    method RefreshChain(statusFetch: string -> Option<StatusReply>, now: string,
                        healthFetch: string -> Option<string>, scenesFetch: Option<seq<RemoteScene>>)
      returns (ok: bool, ghost healthOk: bool)
      requires db.Valid()
      requires scenesFetch.Some? ==>
        var kept := ForLocation(scenesFetch.value, locationId);
        DistinctScenes(kept) && ScenesFitLocation(db.scenes, locationId, kept)
      modifies this`presence, this`rooms, this`scenes, db`capabilities, db`devices, db`scenes
      ensures db.Valid()
      ensures (Snapshot(presence, rooms, db.capabilities, db.devices), healthOk)
        == RefreshPass(old(Snapshot(presence, rooms, db.capabilities, db.devices)), statusFetch, now, healthFetch)
      ensures ok == (healthOk && scenesFetch.Some?)
      ensures db.scenes == if ok then ScenesAfterLoad(old(db.scenes), locationId, scenesFetch.value) else old(db.scenes)
    {
      var h := StatusAndHealth(statusFetch, now, healthFetch);
      healthOk := h;
      ok := false;
      if h {
        ok := LoadAllScenes(scenesFetch);
      }
    }

    /**
     * The store reads of `readData` after the location: app config, rooms,
     * devices, each only after the one before succeeded. `appConfigRead` is
     * the result of `readAppConfig`.
     */
    method ReadStore(appConfigRead: bool) returns (ok: bool)
      modifies this`presence, this`rooms
      ensures ok == (appConfigRead && |RoomScan(db.rooms, locationId)| > 0
                     && AnyVisibleCapability(db.capabilities, DeviceScan(db.devices, locationId)))
      ensures !appConfigRead ==> presence == old(presence) && rooms == old(rooms)
      ensures appConfigRead && |RoomScan(db.rooms, locationId)| == 0 ==>
        presence == old(presence) && rooms == VisibleRooms(db.rooms, locationId)
      ensures appConfigRead && |RoomScan(db.rooms, locationId)| > 0 ==>
        Tree(presence, rooms) == DevicesView(db.devices, db.capabilities, locationId, VisibleRooms(db.rooms, locationId))
    {
      ok := false;
      if appConfigRead {
        var roomsOk := ReadRooms();
        if roomsOk {
          ok := ReadDevices();
        }
      }
    }

    /**
     * `readData`: rebuild the live view from the store. `locationRead` and
     * `appConfigRead` are the results of `readLocation` and `readAppConfig`; a
     * location read empties presence, rooms and scenes. Once rooms and devices
     * are read, a refresh pulls status, health and scenes from the platform,
     * each step only after the one before succeeded, and the scenes are read
     * back whether or not the refresh succeeded. The result is true when the
     * whole refresh succeeded OR when the scene read found a row: a failed
     * refresh followed by a successful scene read still reports success.
     */
    method ReadData(refresh: bool, locationRead: bool, appConfigRead: bool,
                    statusFetch: string -> Option<StatusReply>, now: string,
                    healthFetch: string -> Option<string>, scenesFetch: Option<seq<RemoteScene>>)
      returns (ok: bool, ghost refreshed: bool, ghost scenesRead: Option<bool>)
      requires db.Valid()
      requires scenesFetch.Some? ==>
        var kept := ForLocation(scenesFetch.value, locationId);
        DistinctScenes(kept) && ScenesFitLocation(db.scenes, locationId, kept)
      modifies this`presence, this`rooms, this`scenes, db`capabilities, db`devices, db`scenes
      ensures db.Valid()
      ensures !locationRead ==> presence == old(presence) && rooms == old(rooms) && scenes == old(scenes)
      ensures var v := DevicesView(old(db.devices), old(db.capabilities), locationId, VisibleRooms(old(db.rooms), locationId));
        var roomsOk := |RoomScan(old(db.rooms), locationId)| > 0;
        var mainOk := locationRead && appConfigRead && roomsOk
                      && AnyVisibleCapability(old(db.capabilities), DeviceScan(old(db.devices), locationId));
        && (!mainOk ==>
              && !ok && !refreshed && scenesRead.None?
              && db.capabilities == old(db.capabilities) && db.devices == old(db.devices) && db.scenes == old(db.scenes))
        && (locationRead && !mainOk ==>
              && scenes == []
              && (if appConfigRead && roomsOk then Tree(presence, rooms) == v
                  else presence == [] && rooms == (if appConfigRead then VisibleRooms(old(db.rooms), locationId) else [])))
        && (mainOk ==>
              && scenesRead == Some(|SceneScan(db.scenes, locationId)| > 0)
              && scenes == VisibleScenes(db.scenes, locationId)
              && ok == (refreshed || scenesRead.value))
        && (!refresh ==> !refreshed && db.capabilities == old(db.capabilities) && db.devices == old(db.devices) && db.scenes == old(db.scenes))
        && (mainOk && !refresh ==> Tree(presence, rooms) == v)
      ensures var v := DevicesView(old(db.devices), old(db.capabilities), locationId, VisibleRooms(old(db.rooms), locationId));
        var mainOk := locationRead && appConfigRead && |RoomScan(old(db.rooms), locationId)| > 0
                      && AnyVisibleCapability(old(db.capabilities), DeviceScan(old(db.devices), locationId));
        var pass := RefreshPass(Snapshot(v.presence, v.rooms, old(db.capabilities), old(db.devices)), statusFetch, now, healthFetch);
        mainOk && refresh ==>
          && Snapshot(presence, rooms, db.capabilities, db.devices) == pass.0
          && refreshed == (pass.1 && scenesFetch.Some?)
          && db.scenes == (if refreshed then ScenesAfterLoad(old(db.scenes), locationId, scenesFetch.value) else old(db.scenes))
    {
      ok, refreshed, scenesRead := false, false, None;
      if !locationRead {
        return;
      }
      presence, rooms, scenes := [], [], [];
      var mainOk := ReadStore(appConfigRead);
      if !mainOk {
        return;
      }
      if refresh {
        ghost var healthOk;
        ok, healthOk := RefreshChain(statusFetch, now, healthFetch, scenesFetch);
        refreshed := ok;
      }
      var scenesOk := ReadAllScenes();
      scenesRead := Some(scenesOk);
      if scenesOk {
        ok := true;
      }
    }
  }
}
