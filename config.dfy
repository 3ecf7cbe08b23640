/**
 * `updateConfigs`, the admin console's save: location nickname and email,
 * and the local settings of rooms, devices and capabilities (order, visibility,
 * guest access, icon). Every setting a config entry leaves out is written with
 * its default, and an entry only updates a row that already exists.
 */
module Config {
  import opened Wrappers
  import opened Store

  /**
   * One entry of the location list. Each field is the entry's value for that
   * key, "" when the key is absent (absent and empty read the same).
   */
  datatype LocationItem = LocationItem(locationId: string, nickname: string, email: string)

  /** A room entry; `roomId` is "" when absent, any other absent setting is None. */
  datatype RoomConfig = RoomConfig(roomId: string, sortSeq: Option<int>, visible: Option<int>, guestAccess: Option<int>)

  datatype DeviceConfig = DeviceConfig(
    deviceId: string, sortSeq: Option<int>, visible: Option<int>, guestAccess: Option<int>, icon: Option<string>)

  datatype CapabilityConfig = CapabilityConfig(deviceId: string, capabilityId: string, sortSeq: Option<int>, visible: Option<int>)

  datatype ConfigData = ConfigData(
    location: seq<LocationItem>, rooms: seq<RoomConfig>, devices: seq<DeviceConfig>, capabilities: seq<CapabilityConfig>)

  // -------------------------------------------------------------- location

  /** The three values the location scan keeps. */
  datatype LocationSettings = LocationSettings(locationId: string, nickname: string, email: string)

  /**
   * The scan of the location entries: each entry sets the first of
   * location id, nickname, email that it gives a non-empty value for, and no
   * other; a later entry overrides an earlier one.
   */
  function ScanLocation(items: seq<LocationItem>): LocationSettings {
    if items == [] then LocationSettings("", "", "")
    else
      var s := ScanLocation(items[..|items| - 1]);
      var item := items[|items| - 1];
      if item.locationId != "" then s.(locationId := item.locationId)
      else if item.nickname != "" then s.(nickname := item.nickname)
      else if item.email != "" then s.(email := item.email)
      else s
  }

  /** An entry that sets the nickname: it gives no location id but a nickname. */
  predicate SetsNickname(item: LocationItem) {
    item.locationId == "" && item.nickname != ""
  }

  predicate SetsEmail(item: LocationItem) {
    item.locationId == "" && item.nickname == "" && item.email != ""
  }

  /** The scan loop over the location entries. */
  method ScanLocationItems(items: seq<LocationItem>) returns (s: LocationSettings)
    ensures s == ScanLocation(items)
  {
    s := LocationSettings("", "", "");
    var i := 0;
    while i < |items|
      invariant 0 <= i <= |items| && s == ScanLocation(items[..i])
    {
      var item := items[i];
      assert items[..i + 1][..i] == items[..i];
      if item.locationId != "" {
        s := s.(locationId := item.locationId);
      } else if item.nickname != "" {
        s := s.(nickname := item.nickname);
      } else if item.email != "" {
        s := s.(email := item.email);
      }
      i := i + 1;
    }
    assert items[..i] == items;
  }

  /**
   * The nickname the scan keeps is that of the last entry that sets one, and
   * "" when no entry sets one: saving a location list without a nickname
   * clears the nickname.
   */
  lemma {:induction false} ScanLocationKeepsLastNickname(items: seq<LocationItem>)
    ensures ScanLocation(items).nickname == "" <==> forall i :: 0 <= i < |items| ==> !SetsNickname(items[i])
    ensures ScanLocation(items).nickname != "" ==>
      exists j :: 0 <= j < |items| && SetsNickname(items[j]) && items[j].nickname == ScanLocation(items).nickname
        && forall i :: j < i < |items| ==> !SetsNickname(items[i])
  {
    if items != [] {
      var init, item := items[..|items| - 1], items[|items| - 1];
      ScanLocationKeepsLastNickname(init);
      assert forall i :: 0 <= i < |init| ==> items[i] == init[i];
      var s := ScanLocation(items);
      if SetsNickname(item) {
        var j := |items| - 1;
        assert SetsNickname(items[j]) && items[j].nickname == s.nickname;
      } else if s.nickname != "" {
        var j :| 0 <= j < |init| && SetsNickname(init[j]) && init[j].nickname == s.nickname
          && forall i :: j < i < |init| ==> !SetsNickname(init[i]);
        assert SetsNickname(items[j]) && items[j].nickname == s.nickname;
        assert forall i :: j < i < |items| ==> !SetsNickname(items[i]);
      }
    }
  }

  /** The same for the email: the last entry that sets one wins, and none clears it. */
  lemma {:induction false} ScanLocationKeepsLastEmail(items: seq<LocationItem>)
    ensures ScanLocation(items).email == "" <==> forall i :: 0 <= i < |items| ==> !SetsEmail(items[i])
    ensures ScanLocation(items).email != "" ==>
      exists j :: 0 <= j < |items| && SetsEmail(items[j]) && items[j].email == ScanLocation(items).email
        && forall i :: j < i < |items| ==> !SetsEmail(items[i])
  {
    if items != [] {
      var init, item := items[..|items| - 1], items[|items| - 1];
      ScanLocationKeepsLastEmail(init);
      assert forall i :: 0 <= i < |init| ==> items[i] == init[i];
      var s := ScanLocation(items);
      if SetsEmail(item) {
        var j := |items| - 1;
        assert SetsEmail(items[j]) && items[j].email == s.email;
      } else if s.email != "" {
        var j :| 0 <= j < |init| && SetsEmail(init[j]) && init[j].email == s.email
          && forall i :: j < i < |init| ==> !SetsEmail(init[i]);
        assert SetsEmail(items[j]) && items[j].email == s.email;
        assert forall i :: j < i < |items| ==> !SetsEmail(items[i]);
      }
    }
  }

  /** `update location set nickname=?, email=? where location_id=?`. */
  function WriteLocation(locations: map<string, LocationRow>, s: LocationSettings): map<string, LocationRow> {
    if s.locationId in locations then locations[s.locationId := locations[s.locationId].(nickname := s.nickname, email := s.email)]
    else locations
  }

  // ------------------------------------------------ rooms, devices, capabilities

  /**
   * The config entries applied in order, each as an update by key: an entry
   * whose key names no row changes nothing.
   */
  function ApplyConfigs<K(==,!new), R, C>(t: Table<K, R>, cfgs: seq<C>, key: C -> K, apply: (R, C) -> R): (r: Table<K, R>)
    ensures r.rows.Keys == t.rows.Keys && r.order == t.order
  {
    if cfgs == [] then t
    else
      var u := ApplyConfigs(t, cfgs[..|cfgs| - 1], key, apply);
      var c := cfgs[|cfgs| - 1];
      if key(c) in u.rows then Replace(u, key(c), apply(u.rows[key(c)], c)) else u
  }

  /** The last entry for key `k`, if any. */
  function LastFor<K(==), C>(cfgs: seq<C>, key: C -> K, k: K): (r: Option<C>)
    ensures r.Some? ==> r.value in cfgs && key(r.value) == k
    ensures r.None? ==> forall i :: 0 <= i < |cfgs| ==> key(cfgs[i]) != k
  {
    if cfgs == [] then None
    else if key(cfgs[|cfgs| - 1]) == k then Some(cfgs[|cfgs| - 1])
    else LastFor(cfgs[..|cfgs| - 1], key, k)
  }

  /** An update that writes every column it touches: a second one overrides the first. */
  ghost predicate Overriding<R(!new), C(!new)>(apply: (R, C) -> R) {
    forall r: R, c1: C, c2: C :: apply(apply(r, c1), c2) == apply(r, c2)
  }

  /** With overriding updates, the last entry for a row decides the row; rows no entry names keep their values. */
  lemma {:induction false} ApplyConfigsLastWins<K(!new), R(!new), C(!new)>(t: Table<K, R>, cfgs: seq<C>, key: C -> K, apply: (R, C) -> R)
    requires Overriding(apply)
    ensures forall k :: k in t.rows ==>
      ApplyConfigs(t, cfgs, key, apply).rows[k] ==
        match LastFor(cfgs, key, k)
        case None => t.rows[k]
        case Some(c) => apply(t.rows[k], c)
  {
    if cfgs != [] {
      var init, c := cfgs[..|cfgs| - 1], cfgs[|cfgs| - 1];
      ApplyConfigsLastWins(t, init, key, apply);
      var u := ApplyConfigs(t, init, key, apply);
      if key(c) in t.rows {
        var r0 := t.rows[key(c)];
        match LastFor(init, key, key(c))
        case None =>
        case Some(c0) =>
          assert apply(apply(r0, c0), c) == apply(r0, c);
      }
    }
  }

  function RoomKey(c: RoomConfig): string { c.roomId }

  /** `update room set seq=?, visible=?, guest_access=?`, with defaults 99, 1 and 0. */
  function ConfiguredRoom(row: RoomRow, c: RoomConfig): RoomRow {
    row.(sortSeq := c.sortSeq.GetOr(99), visible := c.visible.GetOr(1), guestAccess := Some(c.guestAccess.GetOr(0)))
  }

  function DeviceKey(c: DeviceConfig): string { c.deviceId }

  /** `update device set seq=?, visible=?, guest_access=?, icon=?`, with defaults 99, 1, 0 and "". */
  function ConfiguredDevice(row: DeviceRow, c: DeviceConfig): DeviceRow {
    row.(sortSeq := c.sortSeq.GetOr(99), visible := c.visible.GetOr(1), guestAccess := Some(c.guestAccess.GetOr(0)),
         icon := c.icon.GetOr(""))
  }

  function CapabilityKey(c: CapabilityConfig): CapKey { CapKey(c.deviceId, c.capabilityId) }

  /** `update capability set seq=?, visible=?`, with defaults 99 and 1. */
  function ConfiguredCapability(row: CapabilityRow, c: CapabilityConfig): CapabilityRow {
    row.(sortSeq := c.sortSeq.GetOr(99), visible := c.visible.GetOr(1))
  }

  /**
   * After the room entries are applied, the rows are the same rows in the
   * same order; a room with an entry takes the last entry's settings, with 99,
   * 1 and 0 for any it leaves out, and keeps its name and location; a room
   * without one is unchanged.
   */
  lemma RoomConfigsApply(t: Table<string, RoomRow>, cfgs: seq<RoomConfig>)
    ensures var r := ApplyConfigs(t, cfgs, RoomKey, ConfiguredRoom);
      && r.rows.Keys == t.rows.Keys && r.order == t.order
      && (forall k :: k in t.rows && LastFor(cfgs, RoomKey, k).None? ==> r.rows[k] == t.rows[k])
      && (forall k :: k in t.rows && LastFor(cfgs, RoomKey, k).Some? ==>
            var c := LastFor(cfgs, RoomKey, k).value;
            && r.rows[k].name == t.rows[k].name && r.rows[k].locationId == t.rows[k].locationId
            && r.rows[k].sortSeq == c.sortSeq.GetOr(99) && r.rows[k].visible == c.visible.GetOr(1)
            && r.rows[k].guestAccess == Some(c.guestAccess.GetOr(0)))
  {
    ApplyConfigsLastWins(t, cfgs, RoomKey, ConfiguredRoom);
  }

  lemma DeviceConfigsApply(t: Table<string, DeviceRow>, cfgs: seq<DeviceConfig>)
    ensures var r := ApplyConfigs(t, cfgs, DeviceKey, ConfiguredDevice);
      && r.rows.Keys == t.rows.Keys && r.order == t.order
      && (forall k :: k in t.rows && LastFor(cfgs, DeviceKey, k).None? ==> r.rows[k] == t.rows[k])
      && (forall k :: k in t.rows && LastFor(cfgs, DeviceKey, k).Some? ==>
            var c := LastFor(cfgs, DeviceKey, k).value;
            && r.rows[k] == t.rows[k].(sortSeq := r.rows[k].sortSeq, visible := r.rows[k].visible,
                                       guestAccess := r.rows[k].guestAccess, icon := r.rows[k].icon)
            && r.rows[k].sortSeq == c.sortSeq.GetOr(99) && r.rows[k].visible == c.visible.GetOr(1)
            && r.rows[k].guestAccess == Some(c.guestAccess.GetOr(0)) && r.rows[k].icon == c.icon.GetOr(""))
  {
    ApplyConfigsLastWins(t, cfgs, DeviceKey, ConfiguredDevice);
  }

  lemma CapabilityConfigsApply(t: Table<CapKey, CapabilityRow>, cfgs: seq<CapabilityConfig>)
    ensures var r := ApplyConfigs(t, cfgs, CapabilityKey, ConfiguredCapability);
      && r.rows.Keys == t.rows.Keys && r.order == t.order
      && (forall k :: k in t.rows && LastFor(cfgs, CapabilityKey, k).None? ==> r.rows[k] == t.rows[k])
      && (forall k :: k in t.rows && LastFor(cfgs, CapabilityKey, k).Some? ==>
            var c := LastFor(cfgs, CapabilityKey, k).value;
            && r.rows[k].state == t.rows[k].state && r.rows[k].updated == t.rows[k].updated
            && r.rows[k].sortSeq == c.sortSeq.GetOr(99) && r.rows[k].visible == c.visible.GetOr(1))
  {
    ApplyConfigsLastWins(t, cfgs, CapabilityKey, ConfiguredCapability);
  }

  /** One of the three update loops: each entry in turn, as an update by key. */
  method ApplyRoomConfigs(db: Database, cfgs: seq<RoomConfig>)
    modifies db`rooms
    ensures db.rooms == ApplyConfigs(old(db.rooms), cfgs, RoomKey, ConfiguredRoom)
  {
    var i := 0;
    while i < |cfgs|
      invariant 0 <= i <= |cfgs| && db.rooms == ApplyConfigs(old(db.rooms), cfgs[..i], RoomKey, ConfiguredRoom)
    {
      assert cfgs[..i + 1][..i] == cfgs[..i];
      var c := cfgs[i];
      if c.roomId in db.rooms.rows {
        db.rooms := Replace(db.rooms, c.roomId, ConfiguredRoom(db.rooms.rows[c.roomId], c));
      }
      i := i + 1;
    }
    assert cfgs[..i] == cfgs;
  }

  method ApplyDeviceConfigs(db: Database, cfgs: seq<DeviceConfig>)
    modifies db`devices
    ensures db.devices == ApplyConfigs(old(db.devices), cfgs, DeviceKey, ConfiguredDevice)
  {
    var i := 0;
    while i < |cfgs|
      invariant 0 <= i <= |cfgs| && db.devices == ApplyConfigs(old(db.devices), cfgs[..i], DeviceKey, ConfiguredDevice)
    {
      assert cfgs[..i + 1][..i] == cfgs[..i];
      var c := cfgs[i];
      if c.deviceId in db.devices.rows {
        db.devices := Replace(db.devices, c.deviceId, ConfiguredDevice(db.devices.rows[c.deviceId], c));
      }
      i := i + 1;
    }
    assert cfgs[..i] == cfgs;
  }

  method ApplyCapabilityConfigs(db: Database, cfgs: seq<CapabilityConfig>)
    modifies db`capabilities
    ensures db.capabilities == ApplyConfigs(old(db.capabilities), cfgs, CapabilityKey, ConfiguredCapability)
  {
    var i := 0;
    while i < |cfgs|
      invariant 0 <= i <= |cfgs| && db.capabilities == ApplyConfigs(old(db.capabilities), cfgs[..i], CapabilityKey, ConfiguredCapability)
    {
      assert cfgs[..i + 1][..i] == cfgs[..i];
      var c := cfgs[i];
      var k := CapKey(c.deviceId, c.capabilityId);
      if k in db.capabilities.rows {
        db.capabilities := Replace(db.capabilities, k, ConfiguredCapability(db.capabilities.rows[k], c));
      }
      i := i + 1;
    }
    assert cfgs[..i] == cfgs;
  }

  /**
   * `updateConfigs`: the location row is written only when the location list
   * is non-empty; the room, device and capability entries are applied as
   * updates; no row is added or removed. It reports success when any of the
   * four lists is non-empty.
   */
  method UpdateConfigs(db: Database, cfg: ConfigData) returns (status: bool)
    modifies db
    ensures status == (|cfg.location| > 0 || |cfg.rooms| > 0 || |cfg.devices| > 0 || |cfg.capabilities| > 0)
    ensures db.locations == if |cfg.location| > 0 then WriteLocation(old(db.locations), ScanLocation(cfg.location)) else old(db.locations)
    ensures db.rooms == ApplyConfigs(old(db.rooms), cfg.rooms, RoomKey, ConfiguredRoom)
    ensures db.devices == ApplyConfigs(old(db.devices), cfg.devices, DeviceKey, ConfiguredDevice)
    ensures db.capabilities == ApplyConfigs(old(db.capabilities), cfg.capabilities, CapabilityKey, ConfiguredCapability)
    ensures db.scenes == old(db.scenes)
    ensures old(db.Valid()) ==> db.Valid()
  {
    status := false;
    if |cfg.location| > 0 {
      var s := ScanLocationItems(cfg.location);
      db.locations := WriteLocation(db.locations, s);
      status := true;
    }
    ApplyRoomConfigs(db, cfg.rooms);
    ApplyDeviceConfigs(db, cfg.devices);
    ApplyCapabilityConfigs(db, cfg.capabilities);
    status := status || |cfg.rooms| > 0 || |cfg.devices| > 0 || |cfg.capabilities| > 0;
  }
}
