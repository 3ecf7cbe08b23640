/**
 * The in-memory tree the browser is served (`self.location`): the visible
 * rooms of the location, each with its devices, a separate list of presence
 * devices, and the scenes. This module states what `readRooms`,
 * `readDevices` and `readAllScenes` build from the store.
 */
module LiveView {
  import opened Wrappers
  import opened Values
  import opened Capabilities
  import opened Store
  import opened Remote

  datatype LiveCap = LiveCap(id: string, state: Value, sortSeq: int, updated: string)

  /** `displayLabel` is the name shown: the local nickname when one is set, else the platform label. */
  datatype LiveDevice = LiveDevice(
    deviceId: string, name: string, displayLabel: string, sortSeq: int, health: string,
    guestAccess: Option<int>, icon: string, capabilities: seq<LiveCap>)

  datatype LiveRoom = LiveRoom(roomId: string, name: string, sortSeq: int, guestAccess: Option<int>, devices: seq<LiveDevice>)

  /**
   * A scene as `loadAllScenes` lists it straight from the platform, or as
   * `readAllScenes` reads the whole row back from the store.
   */
  datatype LiveScene =
    | Fetched(sceneId: string, sceneName: string)
    | Stored(sceneId: string, name: string, locationId: string, visible: int, sortSeq: int, guestAccess: Option<int>)

  // ---------------------------------------------------------------- rooms

  /** `select * from room where location_id=? and visible=1`. */
  function RoomScan(t: Table<string, RoomRow>, loc: string): seq<string> {
    Select(t, (k: string, r: RoomRow) => r.locationId == loc && r.visible == 1)
  }

  function RoomView(id: string, row: RoomRow): LiveRoom {
    LiveRoom(id, row.name, row.sortSeq, row.guestAccess, [])
  }

  function RoomViews(t: Table<string, RoomRow>, ids: seq<string>): (r: seq<LiveRoom>)
    requires forall k :: k in ids ==> k in t.rows
    ensures |r| == |ids|
    ensures forall j :: 0 <= j < |ids| ==> r[j] == RoomView(ids[j], t.rows[ids[j]])
  {
    if ids == [] then [] else RoomViews(t, ids[..|ids| - 1]) + [RoomView(ids[|ids| - 1], t.rows[ids[|ids| - 1]])]
  }

  /** The room list `readRooms` builds, with no devices yet. */
  function VisibleRooms(t: Table<string, RoomRow>, loc: string): seq<LiveRoom> {
    RoomViews(t, RoomScan(t, loc))
  }

  function LiveRoomIds(rooms: seq<LiveRoom>): set<string> {
    set j | 0 <= j < |rooms| :: rooms[j].roomId
  }

  /**
   * `readRooms` lists every visible room of the location once, in scan order,
   * with its name, seq and guest access and an empty device list, and nothing
   * else.
   */
  lemma VisibleRoomsAreTheVisibleRows(t: Table<string, RoomRow>, loc: string)
    requires ValidTable(t)
    ensures var rooms := VisibleRooms(t, loc);
      && LiveRoomIds(rooms) == set k | k in t.rows && t.rows[k].locationId == loc && t.rows[k].visible == 1
      && (forall i, j :: 0 <= i < j < |rooms| ==> rooms[i].roomId != rooms[j].roomId)
      && (forall j :: 0 <= j < |rooms| ==>
            var row := t.rows[rooms[j].roomId];
            rooms[j] == LiveRoom(rooms[j].roomId, row.name, row.sortSeq, row.guestAccess, []))
  {
    var ids := RoomScan(t, loc);
    var rooms := VisibleRooms(t, loc);
    forall k | k in t.rows && t.rows[k].locationId == loc && t.rows[k].visible == 1 ensures k in LiveRoomIds(rooms) {
      var j :| 0 <= j < |ids| && ids[j] == k;
      assert rooms[j].roomId == k;
    }
  }

  // -------------------------------------------------------------- devices

  /** `select * from device where location_id=? and visible=1`. */
  function DeviceScan(t: Table<string, DeviceRow>, loc: string): seq<string> {
    Select(t, (k: string, d: DeviceRow) => d.locationId == loc && d.visible == 1)
  }

  /** `select * from capability where device_id=? and visible=1`. */
  function CapScan(ct: Table<CapKey, CapabilityRow>, deviceId: string): seq<CapKey> {
    Select(ct, (k: CapKey, c: CapabilityRow) => k.deviceId == deviceId && c.visible == 1)
  }

  /** The state column is text, so a stored state is read back as text. */
  function CapView(k: CapKey, c: CapabilityRow): LiveCap {
    LiveCap(k.capabilityId, Text(c.state), c.sortSeq, c.updated)
  }

  /** The capabilities among `keys` that are on the allow-list, in order. */
  function AllowedCaps(ct: Table<CapKey, CapabilityRow>, keys: seq<CapKey>): (r: seq<LiveCap>)
    requires forall k :: k in keys ==> k in ct.rows
    ensures |r| <= |keys|
  {
    if keys == [] then []
    else
      var rest := AllowedCaps(ct, keys[..|keys| - 1]);
      var k := keys[|keys| - 1];
      if k.capabilityId in CapList then rest + [CapView(k, ct.rows[k])] else rest
  }

  lemma AllowedCapsStep(ct: Table<CapKey, CapabilityRow>, keys: seq<CapKey>, j: nat)
    requires j < |keys| && forall k :: k in keys ==> k in ct.rows
    ensures forall k :: k in keys[..j] ==> k in ct.rows
    ensures keys[j] in ct.rows
    ensures AllowedCaps(ct, keys[..j + 1]) ==
      if keys[j].capabilityId in CapList then AllowedCaps(ct, keys[..j]) + [CapView(keys[j], ct.rows[keys[j]])]
      else AllowedCaps(ct, keys[..j])
  {
    assert keys[..j + 1][..j] == keys[..j];
    assert keys[j] in keys;
  }

  function DeviceCaps(ct: Table<CapKey, CapabilityRow>, deviceId: string): seq<LiveCap> {
    AllowedCaps(ct, CapScan(ct, deviceId))
  }

  function DisplayLabel(row: DeviceRow): string {
    if row.nickname != "" then row.nickname else row.deviceLabel
  }

  function DeviceView(id: string, row: DeviceRow, caps: seq<LiveCap>): LiveDevice {
    LiveDevice(id, row.name, DisplayLabel(row), row.sortSeq, row.health, row.guestAccess, row.icon, caps)
  }

  /** Where `readDevices` puts a device: nowhere without a listed capability, else by room. */
  datatype Slot = Presence | InRoom(roomId: string)

  function SlotOf(row: DeviceRow, caps: seq<LiveCap>): Option<Slot> {
    if |caps| == 0 then None
    else if row.roomId == NoRoom then Some(Presence)
    else Some(InRoom(row.roomId))
  }

  datatype Tree = Tree(presence: seq<LiveDevice>, rooms: seq<LiveRoom>)

  /** `room['devices'].append(device)` for every room whose id matches. */
  function AppendToRooms(rooms: seq<LiveRoom>, roomId: string, dev: LiveDevice): (r: seq<LiveRoom>)
    ensures |r| == |rooms|
    ensures forall j :: 0 <= j < |rooms| ==>
      r[j] == if rooms[j].roomId == roomId then rooms[j].(devices := rooms[j].devices + [dev]) else rooms[j]
  {
    if rooms == [] then []
    else
      var rm := rooms[|rooms| - 1];
      AppendToRooms(rooms[..|rooms| - 1], roomId, dev)
        + [if rm.roomId == roomId then rm.(devices := rm.devices + [dev]) else rm]
  }

  function Place(tree: Tree, dev: LiveDevice, slot: Option<Slot>): Tree {
    match slot
    case None => tree
    case Some(Presence) => tree.(presence := tree.presence + [dev])
    case Some(InRoom(roomId)) => tree.(rooms := AppendToRooms(tree.rooms, roomId, dev))
  }

  function ViewOf(t: Table<string, DeviceRow>, ct: Table<CapKey, CapabilityRow>, id: string): LiveDevice
    requires id in t.rows
  {
    DeviceView(id, t.rows[id], DeviceCaps(ct, id))
  }

  function SlotOfId(t: Table<string, DeviceRow>, ct: Table<CapKey, CapabilityRow>, id: string): Option<Slot>
    requires id in t.rows
  {
    SlotOf(t.rows[id], DeviceCaps(ct, id))
  }

  /** The devices of `ids` placed one after another, as the scan loop of `readDevices` does. */
  function PlaceAll(t: Table<string, DeviceRow>, ct: Table<CapKey, CapabilityRow>, ids: seq<string>, tree: Tree): Tree
    requires forall k :: k in ids ==> k in t.rows
  {
    if ids == [] then tree
    else
      var id := ids[|ids| - 1];
      Place(PlaceAll(t, ct, ids[..|ids| - 1], tree), ViewOf(t, ct, id), SlotOfId(t, ct, id))
  }

  /** One step of the scan loop of `readDevices`, on values. */
  lemma PlaceAllStep(t: Table<string, DeviceRow>, ct: Table<CapKey, CapabilityRow>, ids: seq<string>, i: nat, tree: Tree)
    requires i < |ids| && forall k :: k in ids ==> k in t.rows
    ensures forall k :: k in ids[..i] ==> k in t.rows
    ensures PlaceAll(t, ct, ids[..i + 1], tree) ==
      Place(PlaceAll(t, ct, ids[..i], tree), ViewOf(t, ct, ids[i]), SlotOfId(t, ct, ids[i]))
    ensures AnyVisibleCapability(ct, ids[..i + 1]) == (AnyVisibleCapability(ct, ids[..i]) || |CapScan(ct, ids[i])| > 0)
  {
    assert ids[..i + 1][..i] == ids[..i];
    assert forall k :: k in ids[..i + 1] ==> k in ids;
  }

  function ClearDevices(rooms: seq<LiveRoom>): (r: seq<LiveRoom>)
    ensures |r| == |rooms| && forall j :: 0 <= j < |rooms| ==> r[j] == rooms[j].(devices := [])
  {
    if rooms == [] then [] else ClearDevices(rooms[..|rooms| - 1]) + [rooms[|rooms| - 1].(devices := [])]
  }

  /** The tree `readDevices` leaves: presence rebuilt, every room's device list rebuilt. */
  function DevicesView(t: Table<string, DeviceRow>, ct: Table<CapKey, CapabilityRow>, loc: string, rooms: seq<LiveRoom>): Tree {
    PlaceAll(t, ct, DeviceScan(t, loc), Tree([], ClearDevices(rooms)))
  }

  /** `readDevices` reports success when any scanned device has a visible capability row, listed or not. */
  function AnyVisibleCapability(ct: Table<CapKey, CapabilityRow>, ids: seq<string>): bool {
    if ids == [] then false
    else AnyVisibleCapability(ct, ids[..|ids| - 1]) || |CapScan(ct, ids[|ids| - 1])| > 0
  }

  /**
   * `readDevices` succeeds exactly when some scanned device has a visible
   * capability row, whether or not that capability is on the allow-list.
   */
  lemma {:induction false} AnyVisibleCapabilityMeans(ct: Table<CapKey, CapabilityRow>, ids: seq<string>)
    ensures AnyVisibleCapability(ct, ids) <==>
      exists j, k :: 0 <= j < |ids| && k in ct.rows && k in ct.order && k.deviceId == ids[j] && ct.rows[k].visible == 1
  {
    if ids != [] {
      var init, id := ids[..|ids| - 1], ids[|ids| - 1];
      AnyVisibleCapabilityMeans(ct, init);
      var scan := CapScan(ct, id);
      if |scan| > 0 {
        assert scan[0] in scan;
        assert ids[|ids| - 1] == id;
      }
      if exists j, k :: 0 <= j < |ids| && k in ct.rows && k in ct.order && k.deviceId == ids[j] && ct.rows[k].visible == 1 {
        var j, k :| 0 <= j < |ids| && k in ct.rows && k in ct.order && k.deviceId == ids[j] && ct.rows[k].visible == 1;
        if j < |init| {
          assert init[j] == ids[j];
        } else {
          assert k in CapScan(ct, id);
        }
      }
      if AnyVisibleCapability(ct, init) {
        var j, k :| 0 <= j < |init| && k in ct.rows && k in ct.order && k.deviceId == init[j] && ct.rows[k].visible == 1;
        assert ids[j] == init[j];
      }
    }
  }

  // ------------------------------------------- the placement, stated per slot

  /** The views of the devices of `ids` that land in `slot`, in scan order. */
  function Members(t: Table<string, DeviceRow>, ct: Table<CapKey, CapabilityRow>, ids: seq<string>, slot: Slot): (r: seq<LiveDevice>)
    requires forall k :: k in ids ==> k in t.rows
    ensures |r| <= |ids|
  {
    if ids == [] then []
    else
      var rest := Members(t, ct, ids[..|ids| - 1], slot);
      var id := ids[|ids| - 1];
      if SlotOfId(t, ct, id) == Some(slot) then rest + [ViewOf(t, ct, id)] else rest
  }

  /** The members of a slot are exactly the views of the scanned ids that land in it. */
  lemma {:induction false} MembersExactly(t: Table<string, DeviceRow>, ct: Table<CapKey, CapabilityRow>, ids: seq<string>, slot: Slot)
    requires forall k :: k in ids ==> k in t.rows
    ensures var r := Members(t, ct, ids, slot);
      && (forall d :: d in r ==> d.deviceId in ids && SlotOfId(t, ct, d.deviceId) == Some(slot) && d == ViewOf(t, ct, d.deviceId))
      && (forall k :: k in ids && SlotOfId(t, ct, k) == Some(slot) ==> ViewOf(t, ct, k) in r)
  {
    if ids != [] {
      var init := ids[..|ids| - 1];
      var id := ids[|ids| - 1];
      assert forall k :: k in ids ==> k in init || k == id;
      MembersExactly(t, ct, init, slot);
    }
  }

  lemma {:induction false} PlaceAllIsMembers(t: Table<string, DeviceRow>, ct: Table<CapKey, CapabilityRow>, ids: seq<string>, tree: Tree)
    requires forall k :: k in ids ==> k in t.rows
    ensures var r := PlaceAll(t, ct, ids, tree);
      && r.presence == tree.presence + Members(t, ct, ids, Presence)
      && |r.rooms| == |tree.rooms|
      && forall j :: 0 <= j < |tree.rooms| ==>
           r.rooms[j] == tree.rooms[j].(devices := tree.rooms[j].devices + Members(t, ct, ids, InRoom(tree.rooms[j].roomId)))
  {
    if ids != [] {
      var init := ids[..|ids| - 1];
      PlaceAllIsMembers(t, ct, init, tree);
    }
  }

  /**
   * `readDevices` rebuilds the tree from the visible devices of the location:
   * the presence list holds, in scan order, exactly the devices whose room is
   * the "no room" sentinel and that have a visible capability on the
   * allow-list; each room holds exactly the other such devices whose room id
   * equals its own. Every device shown lists just its visible allow-listed
   * capabilities and shows its nickname when one is set, else its label.
   */
  lemma ReadDevicesPlaces(t: Table<string, DeviceRow>, ct: Table<CapKey, CapabilityRow>, loc: string, rooms: seq<LiveRoom>)
    requires ValidTable(t)
    ensures var ids := DeviceScan(t, loc);
      var r := DevicesView(t, ct, loc, rooms);
      && (forall k :: k in ids <==> k in t.rows && t.rows[k].locationId == loc && t.rows[k].visible == 1)
      && r.presence == Members(t, ct, ids, Presence)
      && |r.rooms| == |rooms|
      && (forall j :: 0 <= j < |rooms| ==> r.rooms[j] == rooms[j].(devices := Members(t, ct, ids, InRoom(rooms[j].roomId))))
      && (forall d :: d in r.presence ==> d.deviceId in ids && d.deviceId in t.rows && d.displayLabel == DisplayLabel(t.rows[d.deviceId]) && d.capabilities == DeviceCaps(ct, d.deviceId))
  {
    var ids := DeviceScan(t, loc);
    var cleared := ClearDevices(rooms);
    PlaceAllIsMembers(t, ct, ids, Tree([], cleared));
    MembersExactly(t, ct, ids, Presence);
    var r := DevicesView(t, ct, loc, rooms);
    assert r.presence == [] + Members(t, ct, ids, Presence);
    forall j | 0 <= j < |rooms| ensures r.rooms[j] == rooms[j].(devices := Members(t, ct, ids, InRoom(rooms[j].roomId))) {
      assert cleared[j].devices + Members(t, ct, ids, InRoom(rooms[j].roomId)) == Members(t, ct, ids, InRoom(rooms[j].roomId));
    }
  }

  /**
   * A visible device of the location with a listed capability whose room id is
   * neither the sentinel nor the id of any listed room appears nowhere in the
   * tree.
   */
  lemma DeviceOfUnlistedRoomIsDropped(t: Table<string, DeviceRow>, ct: Table<CapKey, CapabilityRow>, loc: string, rooms: seq<LiveRoom>, id: string)
    requires ValidTable(t) && id in t.rows && t.rows[id].roomId != NoRoom
    requires forall j :: 0 <= j < |rooms| ==> rooms[j].roomId != t.rows[id].roomId
    ensures var r := DevicesView(t, ct, loc, rooms);
      && (forall d :: d in r.presence ==> d.deviceId != id)
      && (forall j, d :: 0 <= j < |r.rooms| && d in r.rooms[j].devices ==> d.deviceId != id)
  {
    var ids := DeviceScan(t, loc);
    var r := DevicesView(t, ct, loc, rooms);
    ReadDevicesPlaces(t, ct, loc, rooms);
    forall d | d in r.presence
      ensures d.deviceId != id
    {
      MembersExactly(t, ct, ids, Presence);
      assert SlotOfId(t, ct, id) != Some(Presence);
    }
    forall j, d | 0 <= j < |r.rooms| && d in r.rooms[j].devices
      ensures d.deviceId != id
    {
      MembersExactly(t, ct, ids, InRoom(rooms[j].roomId));
      assert SlotOfId(t, ct, id) != Some(InRoom(rooms[j].roomId));
    }
  }

  /**
   * The capabilities a device shows are exactly its visible capability rows
   * whose id is on the allow-list, each carrying the stored state as text.
   */
  lemma {:induction false} AllowedCapsAreListedRows(ct: Table<CapKey, CapabilityRow>, keys: seq<CapKey>)
    requires forall k :: k in keys ==> k in ct.rows
    ensures forall c :: c in AllowedCaps(ct, keys) ==>
      c.id in CapList && exists k :: k in keys && k.capabilityId == c.id && c == CapView(k, ct.rows[k])
    ensures forall k :: k in keys && k.capabilityId in CapList ==> CapView(k, ct.rows[k]) in AllowedCaps(ct, keys)
  {
    if keys != [] {
      var init := keys[..|keys| - 1];
      assert forall k :: k in init ==> k in keys;
      AllowedCapsAreListedRows(ct, init);
    }
  }

  lemma DeviceCapsAreVisibleListedRows(ct: Table<CapKey, CapabilityRow>, deviceId: string)
    ensures forall c :: c in DeviceCaps(ct, deviceId) ==>
      && c.id in CapList
      && CapKey(deviceId, c.id) in ct.rows
      && ct.rows[CapKey(deviceId, c.id)].visible == 1
      && c.state == Text(ct.rows[CapKey(deviceId, c.id)].state)
    ensures forall k :: k in ct.rows && k in ct.order && k.deviceId == deviceId && ct.rows[k].visible == 1 && k.capabilityId in CapList ==>
      CapView(k, ct.rows[k]) in DeviceCaps(ct, deviceId)
  {
    AllowedCapsAreListedRows(ct, CapScan(ct, deviceId));
  }

  // --------------------------------------------------------------- scenes

  /** `select * from scene where location_id=? and visible=1`. */
  function SceneScan(t: Table<string, SceneRow>, loc: string): seq<string> {
    Select(t, (k: string, s: SceneRow) => s.locationId == loc && s.visible == 1)
  }

  function StoredScene(id: string, row: SceneRow): LiveScene {
    Stored(id, row.name, row.locationId, row.visible, row.sortSeq, row.guestAccess)
  }

  function StoredScenesOf(t: Table<string, SceneRow>, ids: seq<string>): (r: seq<LiveScene>)
    requires forall k :: k in ids ==> k in t.rows
    ensures |r| == |ids|
    ensures forall j :: 0 <= j < |ids| ==> r[j] == StoredScene(ids[j], t.rows[ids[j]])
  {
    if ids == [] then [] else StoredScenesOf(t, ids[..|ids| - 1]) + [StoredScene(ids[|ids| - 1], t.rows[ids[|ids| - 1]])]
  }

  lemma StoredScenesStep(t: Table<string, SceneRow>, ids: seq<string>, i: nat)
    requires i < |ids| && forall k :: k in ids ==> k in t.rows
    ensures forall k :: k in ids[..i] ==> k in t.rows
    ensures ids[i] in t.rows
    ensures StoredScenesOf(t, ids[..i + 1]) == StoredScenesOf(t, ids[..i]) + [StoredScene(ids[i], t.rows[ids[i]])]
  {
    assert ids[..i + 1][..i] == ids[..i];
    assert ids[i] in ids;
  }

  /** The scene list `readAllScenes` builds. */
  function VisibleScenes(t: Table<string, SceneRow>, loc: string): seq<LiveScene> {
    StoredScenesOf(t, SceneScan(t, loc))
  }

  /** The scene list `loadAllScenes` builds from a fetch: the location's scenes, in order. */
  function FetchedScenes(items: seq<RemoteScene>): (r: seq<LiveScene>)
    ensures |r| == |items|
    ensures forall j :: 0 <= j < |items| ==> r[j] == Fetched(items[j].sceneId, items[j].sceneName)
  {
    if items == [] then [] else FetchedScenes(items[..|items| - 1]) + [Fetched(items[|items| - 1].sceneId, items[|items| - 1].sceneName)]
  }

  lemma FetchedScenesSnoc(items: seq<RemoteScene>, sc: RemoteScene)
    ensures FetchedScenes(items + [sc]) == FetchedScenes(items) + [Fetched(sc.sceneId, sc.sceneName)]
  {
    assert (items + [sc])[..|items|] == items;
  }
}
