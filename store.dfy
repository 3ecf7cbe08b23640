/**
 * The durable store: the location, room, device, capability and scene tables.
 * A table is a map from primary key to row plus the order in which the rows
 * were inserted, which is the order a scan without ORDER BY returns them in.
 */
module Store {
  import opened Wrappers

  predicate Distinct<K(==,!new)>(s: seq<K>) {
    forall i, j :: 0 <= i < j < |s| ==> s[i] != s[j]
  }

  datatype Table<K(==,!new), R> = Table(rows: map<K, R>, order: seq<K>)

  /** Every row is listed once in `order`, and `order` lists only rows. */
  ghost predicate ValidTable<K(!new), R>(t: Table<K, R>) {
    && Distinct(t.order)
    && (forall k :: k in t.order ==> k in t.rows)
    && (forall k :: k in t.rows ==> k in t.order)
  }

  function EmptyTable<K(==,!new), R>(): (t: Table<K, R>)
    ensures ValidTable(t) && t.rows == map[]
  {
    Table(map[], [])
  }

  /** `insert into ...`: a new row goes to the end of the scan order. */
  function Insert<K(==,!new), R>(t: Table<K, R>, k: K, r: R): (t': Table<K, R>)
    requires k !in t.rows
    ensures ValidTable(t) ==> ValidTable(t')
    ensures t'.rows == t.rows[k := r] && t'.order == t.order + [k]
  {
    Table(t.rows[k := r], t.order + [k])
  }

  /** `update ... where key = k` on an existing row: the row keeps its place. */
  function Replace<K(==,!new), R>(t: Table<K, R>, k: K, r: R): (t': Table<K, R>)
    requires k in t.rows
    ensures ValidTable(t) ==> ValidTable(t')
    ensures t'.rows == t.rows[k := r] && t'.order == t.order
  {
    Table(t.rows[k := r], t.order)
  }

  function Without<K(==,!new)>(s: seq<K>, ks: set<K>): (r: seq<K>)
    ensures forall k :: k in r <==> k in s && k !in ks
    ensures Distinct(s) ==> Distinct(r)
  {
    if s == [] then []
    else
      var rest := Without(s[..|s| - 1], ks);
      assert forall k :: k in s[..|s| - 1] ==> k in s;
      if s[|s| - 1] in ks then rest else rest + [s[|s| - 1]]
  }

  lemma {:induction false} WithoutTwice<K(!new)>(s: seq<K>, ks: set<K>, ks': set<K>)
    ensures Without(Without(s, ks), ks') == Without(s, ks + ks')
  {
    if s != [] {
      var init := s[..|s| - 1];
      WithoutTwice(init, ks, ks');
      var last := s[|s| - 1];
      if last !in ks {
        var w := Without(init, ks) + [last];
        assert w[..|w| - 1] == Without(init, ks);
      }
    }
  }

  lemma {:induction false} WithoutNothing<K(!new)>(s: seq<K>)
    ensures Without(s, {}) == s
  {
    if s != [] {
      var init := s[..|s| - 1];
      WithoutNothing(init);
      assert Without(s, {}) == Without(init, {}) + [s[|s| - 1]];
      assert init + [s[|s| - 1]] == s;
    }
  }

  lemma {:induction false} WithoutSame<K(!new)>(s: seq<K>, ks: set<K>, ks': set<K>)
    requires forall k :: k in s ==> (k in ks <==> k in ks')
    ensures Without(s, ks) == Without(s, ks')
  {
    if s != [] {
      WithoutSame(s[..|s| - 1], ks, ks');
    }
  }

  /** `delete from ... where key in ks`: the remaining rows keep their order. */
  function DeleteKeys<K(==,!new), R>(t: Table<K, R>, ks: set<K>): (t': Table<K, R>)
    ensures ValidTable(t) ==> ValidTable(t')
    ensures t'.rows == t.rows - ks
  {
    Table(t.rows - ks, Without(t.order, ks))
  }

  lemma DeleteKeysNone<K(!new), R>(t: Table<K, R>)
    ensures DeleteKeys(t, {}) == t
  {
    WithoutNothing(t.order);
    assert t.rows - {} == t.rows;
  }

  lemma DeleteKeysTwice<K(!new), R>(t: Table<K, R>, ks: set<K>, ks': set<K>)
    ensures DeleteKeys(DeleteKeys(t, ks), ks') == DeleteKeys(t, ks + ks')
  {
    WithoutTwice(t.order, ks, ks');
    assert t.rows - ks - ks' == t.rows - (ks + ks');
  }

  /** The elements of a list, as a set. */
  function Elems<K(==,!new)>(s: seq<K>): (r: set<K>)
    ensures forall k :: k in r <==> k in s
  {
    set k | k in s
  }

  /**
   * A list rewritten position by position: writing the new value at the
   * boundary moves the boundary one step on.
   */
  lemma SpliceStep<T>(next: seq<T>, orig: seq<T>, i: nat)
    requires |next| == |orig| && i < |orig|
    ensures (next[..i] + orig[i..])[i := next[i]] == next[..i + 1] + orig[i + 1..]
  {
    var a := (next[..i] + orig[i..])[i := next[i]];
    var b := next[..i + 1] + orig[i + 1..];
    assert |a| == |b|;
    forall k | 0 <= k < |a| ensures a[k] == b[k] {
      if k < i {
        assert a[k] == next[k] && b[k] == next[k];
      } else if k > i {
        assert a[k] == orig[k] && b[k] == orig[k];
      }
    }
  }

  /** A pass of an in-place loop that leaves element `i` as it was. */
  lemma SpliceKeep<T>(next: seq<T>, orig: seq<T>, i: nat)
    requires |next| == |orig| && i < |orig| && next[i] == orig[i]
    ensures next[..i] + orig[i..] == next[..i + 1] + orig[i + 1..]
  {
    SpliceStep(next, orig, i);
    var a := next[..i] + orig[i..];
    assert a[i := next[i]] == a;
  }

  /** The keys of `order` whose rows satisfy `keep`, in scan order: `select ... where ...`. */
  function SelectFrom<K(==,!new), R>(order: seq<K>, rows: map<K, R>, keep: (K, R) -> bool): (r: seq<K>)
    ensures forall k :: k in r <==> k in order && k in rows && keep(k, rows[k])
    ensures Distinct(order) ==> Distinct(r)
    ensures |r| <= |order|
  {
    if order == [] then []
    else
      var rest := SelectFrom(order[..|order| - 1], rows, keep);
      var k := order[|order| - 1];
      assert forall j :: j in order <==> j in order[..|order| - 1] || j == k;
      if k in rows && keep(k, rows[k]) then rest + [k] else rest
  }

  function Select<K(==,!new), R>(t: Table<K, R>, keep: (K, R) -> bool): (r: seq<K>)
    ensures forall k :: k in r <==> k in t.rows && k in t.order && keep(k, t.rows[k])
    ensures Distinct(t.order) ==> Distinct(r)
  {
    SelectFrom(t.order, t.rows, keep)
  }

  datatype LocationRow = LocationRow(
    name: string, nickname: string, latitude: string, longitude: string,
    timeZoneId: string, email: string)

  /** `visible`, `seq` and `guest_access` are local settings; a NULL guest_access is None. */
  datatype RoomRow = RoomRow(
    locationId: string, name: string, visible: int, sortSeq: int, guestAccess: Option<int>)

  /** `roomId` is text; the "no room" sentinel 0 is kept as the text "0". */
  datatype DeviceRow = DeviceRow(
    locationId: string, roomId: string, presentationId: string, name: string,
    health: string, deviceLabel: string, category: string, deviceTypeName: string,
    visible: int, sortSeq: int, guestAccess: Option<int>, nickname: string, icon: string)

  datatype CapKey = CapKey(deviceId: string, capabilityId: string)

  /** `state` is a TEXT column: whatever is written to it is kept as text. */
  datatype CapabilityRow = CapabilityRow(
    locationId: string, visible: int, state: string, sortSeq: int, updated: string)

  datatype SceneRow = SceneRow(
    name: string, locationId: string, visible: int, sortSeq: int, guestAccess: Option<int>)

  /** The SQLite database file, one table per field. */
  class Database {
    var locations: map<string, LocationRow>
    var rooms: Table<string, RoomRow>
    var devices: Table<string, DeviceRow>
    var capabilities: Table<CapKey, CapabilityRow>
    var scenes: Table<string, SceneRow>

    /** Every table is well formed and every capability row belongs to a device row. */
    ghost predicate Valid()
      reads this
    {
      && ValidTable(rooms) && ValidTable(devices)
      && ValidTable(capabilities) && ValidTable(scenes)
      && (forall k :: k in capabilities.rows ==> k.deviceId in devices.rows)
    }

    /** The freshly created database: every table is empty. */
    constructor ()
      ensures Valid()
      ensures locations == map[] && rooms.rows == map[] && devices.rows == map[]
      ensures capabilities.rows == map[] && scenes.rows == map[]
    {
      locations := map[];
      rooms := EmptyTable();
      devices := EmptyTable();
      capabilities := EmptyTable();
      scenes := EmptyTable();
    }
  }
}
