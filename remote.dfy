/**
 * The parsed bodies of the platform's list endpoints, as far as the engine
 * reads them. A fetch that did not answer 200 is None wherever a fetch result
 * is passed in.
 */
module Remote {
  import opened Wrappers

  /** The text the store keeps for a device reported without a room (`roomId` defaults to 0). */
  const NoRoom: string := "0"

  /** One item of `GET locations/{id}/rooms`. */
  datatype RemoteRoom = RemoteRoom(roomId: string, name: string)

  datatype Component = Component(capabilities: seq<string>, categories: seq<string>)

  /**
   * One item of `GET devices?locationId=...`. `roomId` and `presentationId`
   * may be absent; `deviceTypeName` is the `dth.deviceTypeName` entry when
   * both are present.
   */
  datatype RemoteDevice = RemoteDevice(
    deviceId: string, name: string, deviceLabel: string, roomId: Option<string>,
    presentationId: Option<string>, deviceTypeName: Option<string>, components: seq<Component>)

  /** One item of `GET scenes`, which lists the scenes of every location. */
  datatype RemoteScene = RemoteScene(sceneId: string, sceneName: string, locationId: string)

  /** A device item the engine can read: it names a category on its first component. */
  predicate HasCategory(dev: RemoteDevice) {
    |dev.components| > 0 && |dev.components[0].categories| > 0
  }

  function Category(dev: RemoteDevice): string
    requires HasCategory(dev)
  {
    dev.components[0].categories[0]
  }

  /** The room a device row records: the reported room, or the sentinel. */
  function RoomOf(dev: RemoteDevice): string {
    dev.roomId.GetOr(NoRoom)
  }

  /** The capability ids of every component, in component order. */
  function AllCapabilities(comps: seq<Component>): seq<string> {
    if comps == [] then []
    else AllCapabilities(comps[..|comps| - 1]) + comps[|comps| - 1].capabilities
  }

  function RoomIds(items: seq<RemoteRoom>): set<string> {
    set i | 0 <= i < |items| :: items[i].roomId
  }

  function DeviceIds(items: seq<RemoteDevice>): set<string> {
    set i | 0 <= i < |items| :: items[i].deviceId
  }

  function SceneIds(items: seq<RemoteScene>): set<string> {
    set i | 0 <= i < |items| :: items[i].sceneId
  }

  predicate DistinctRooms(items: seq<RemoteRoom>) {
    forall i, j :: 0 <= i < j < |items| ==> items[i].roomId != items[j].roomId
  }

  predicate DistinctDevices(items: seq<RemoteDevice>) {
    forall i, j :: 0 <= i < j < |items| ==> items[i].deviceId != items[j].deviceId
  }

  predicate DistinctScenes(items: seq<RemoteScene>) {
    forall i, j :: 0 <= i < j < |items| ==> items[i].sceneId != items[j].sceneId
  }

  predicate DistinctStrings(s: seq<string>) {
    forall i, j :: 0 <= i < j < |s| ==> s[i] != s[j]
  }

  lemma {:induction false} AllCapabilitiesAppend(a: seq<Component>, b: seq<Component>)
    ensures AllCapabilities(a + b) == AllCapabilities(a) + AllCapabilities(b)
  {
    if b == [] {
      assert a + b == a;
    } else {
      var init, last := b[..|b| - 1], b[|b| - 1];
      assert (a + b)[..|a + b| - 1] == a + init;
      assert (a + b)[|a + b| - 1] == last;
      assert AllCapabilities(a + b) == AllCapabilities(a + init) + last.capabilities;
      AllCapabilitiesAppend(a, init);
      assert AllCapabilities(b) == AllCapabilities(init) + last.capabilities;
    }
  }

  /** The capability ids of `comps`, cut around capability `j` of component `c`. */
  lemma CapabilitiesAround(comps: seq<Component>, c: nat, j: nat)
    requires c < |comps| && j < |comps[c].capabilities|
    ensures var caps := comps[c].capabilities;
      AllCapabilities(comps) ==
        (AllCapabilities(comps[..c]) + caps[..j]) + [caps[j]] + (caps[j + 1..] + AllCapabilities(comps[c + 1..]))
  {
    var caps := comps[c].capabilities;
    assert comps[..c + 1][..c] == comps[..c];
    assert AllCapabilities(comps[..c + 1]) == AllCapabilities(comps[..c]) + caps;
    AllCapabilitiesAppend(comps[..c + 1], comps[c + 1..]);
    assert comps[..c + 1] + comps[c + 1..] == comps;
    assert caps == caps[..j] + [caps[j]] + caps[j + 1..];
  }

  /** An item of a list of distinct ids is not among the ids before it. */
  lemma DistinctRoomsSplit(items: seq<RemoteRoom>, i: nat)
    requires DistinctRooms(items) && i < |items|
    ensures DistinctRooms(items[..i]) && items[i].roomId !in RoomIds(items[..i])
  {
    assert forall j :: 0 <= j < i ==> items[..i][j] == items[j];
  }

  lemma DistinctDevicesSplit(items: seq<RemoteDevice>, i: nat)
    requires DistinctDevices(items) && i < |items|
    ensures DistinctDevices(items[..i]) && items[i].deviceId !in DeviceIds(items[..i])
  {
    assert forall j :: 0 <= j < i ==> items[..i][j] == items[j];
  }

  lemma DistinctScenesSplit(s: seq<RemoteScene>, p: seq<RemoteScene>, x: RemoteScene, q: seq<RemoteScene>)
    requires DistinctScenes(s) && s == p + [x] + q
    ensures DistinctScenes(p) && x.sceneId !in SceneIds(p)
  {
    assert forall j :: 0 <= j < |p| ==> s[j] == p[j];
    assert s[|p|] == x;
  }

  lemma DistinctStringsSplit(s: seq<string>, p: seq<string>, x: string, q: seq<string>)
    requires DistinctStrings(s) && s == p + [x] + q
    ensures x !in p
  {
    assert forall j :: 0 <= j < |p| ==> s[j] == p[j];
    assert s[|p|] == x;
  }
}
