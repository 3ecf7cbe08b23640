# SmartThings reconciliation engine — a Dafny model

This project models the `SmartThings` class of `smartthings.py`, the core of a
small web front end for a SmartThings home. The class keeps a local SQLite
store of rooms, devices, capabilities and scenes in step with the SmartThings
cloud. From that store it builds the live view (`self.location`) that the
browser shows: presence devices, rooms with their devices, and scenes. It
applies device and health events to the view and the store. It also posts
user commands (device changes, thermostat settings, scene runs) after a guest
access check.

Layout:

- `Wrappers`: `Option` and `Outcome`. `Outcome` is either a returned value or a raised Python error.
- `Values`: JSON scalars (`Text` or `Int`), how a TEXT column stores them, and Python's `int()`.
- `Capabilities`: `DEV_LIST` and `CAP_LIST`, and how a status reply is read through them.
- `Store`: tables as a row map plus an insertion order, the row types, and the `Database` class.
- `Remote`: the platform's room, device and scene listings.
- `Reconcile`: what `loadRooms`, `loadDevices` and `loadAllScenes` do to the store, as functions, with their lemmas.
- `LiveView`: what `readRooms`, `readDevices` and `readAllScenes` build, as functions, with their lemmas.
- `Refresh`: the status and health passes over the live view and the store.
- `Events`: device and health events.
- `Commands`: the guest gate and the command payloads.
- `Config`: the admin console's `updateConfigs`.
- `Engine.SmartThings`: the class itself.
  - Its fields `presence`, `rooms` and `scenes` are the live view.
  - Its methods change the view and the store (`modifies`).
  - Each method is proved equal to the specification functions above.

Every answer from the platform is a parameter. A listing fetch is an
`Option` (None stands for any status other than 200). A per-device status or
health fetch is a function from device id to an optional reply. A command
post is a function from request to whether the platform answered 200. The
clock is a `now` string.

Quirks of the code that the model keeps as written:

- `updateDeviceHealth` raises `KeyError` as soon as any presence device is
  shown, because presence entries have no `devices` key.
- For a guest, the `changeDevice`, `changeThermostat` and `runScene` gate
  raises `UnboundLocalError` when the store has no row for the target.
- `readData` reports success when the scene read finds a row, even after the
  refresh chain failed.
- `loadAllDevicesStatus` reports success only for hits on room devices.
  Presence hits write their value but do not set the flag.
- Presence capabilities get the new timestamp in the view. Room capabilities
  keep their old one in the view, while the store is stamped in both cases.
- A room that reappears in the platform listing after being hidden is renamed
  but stays hidden. The same holds for devices.
- Scenes that vanish from the listing are deleted, not hidden.
- A presence event is emitted whenever it matches, even with an unchanged state.
- A room event is emitted only when the first matching capability held a different state.

## Model

| member | source | states |
|---|---|---|
| Capabilities.DevListHasDistinctKeys | smartthings.py:25-32 | The capability ids of `DEV_LIST` are pairwise distinct, so every capability has exactly one attribute to read. |
| Capabilities.PickStatusOfDistinct | smartthings.py:466-477 | For distinct capability ids, reading a status reply through the list finds a value exactly when some entry for the capability is reported, and that value is the entry's reported value. |
| Capabilities.StatusValueReadsAllowList | smartthings.py:466-477 | A status value is found only for a capability in `CAP_LIST`, and it is the reply's value under that capability's own attribute in `DEV_LIST`. |
| Values.NatTextValue | smartthings.py:475-476 | The decimal text of a natural number reads back as that number. |
| Values.StoredIntParsesBack | smartthings.py:475-476 | An integer state written to a TEXT column and read back parses with `int()` to the same integer. |
| Events.StoredIntEventIsEmitted | smartthings.py:651-663 | A room capability whose shown state is the stored text of an integer, as `readDevices` reads it back, compares unequal to an event carrying that integer. The event is emitted as `device_chg`, the capability takes the integer, and only the next identical event is silent. |
| Values.ParseInt | smartthings.py:775 | `int()` of a string succeeds only on a non-empty string. |
| Values.ToInt | smartthings.py:775 | `int()` of an integer is that integer. |
| Store.Insert | smartthings.py:346-347 | An insert adds the row under its key, appends the key to the row order, and keeps the table valid. |
| Store.Replace | smartthings.py:341-342 | An update sets the row under its key, keeps the row order, and keeps the table valid. |
| Store.DeleteKeys | smartthings.py:602-604 | Deleting a set of keys removes exactly those rows and keeps the table valid. |
| Store.DeleteKeysTwice | smartthings.py:602-604 | Two deletions in a row equal one deletion of the union of the keys. |
| Store.Without | smartthings.py:344 | The pending list minus a set of ids holds exactly the listed ids outside the set, and stays duplicate-free. |
| Store.WithoutTwice | smartthings.py:340-347 | Removing two sets one after the other equals removing their union. |
| Store.Select | smartthings.py:366 | A select returns exactly the stored keys whose rows satisfy the filter, without duplicates. |
| Reconcile.LoadRoomsReconciles | smartthings.py:331-353 | After `loadRooms` the table stays valid, and its keys are the old keys plus the listed rooms. Known rooms of the location missing from the listing are hidden, with nothing else changed. Unlisted rows of other locations are untouched. A listed room that was stored is renamed only, whatever location its row holds. A new room is inserted visible with sequence 99 and no guest access. |
| Reconcile.LoadRoomsPlan | smartthings.py:335-351 | The rooms still pending after the upsert pass are all stored, and hiding them gives the state `loadRooms` promises. |
| Reconcile.ReappearingRoomStaysHidden | smartthings.py:338-344 | A hidden room that is listed again stays hidden after `loadRooms`. |
| Reconcile.UpsertRoomsRows | smartthings.py:340-348 | After the upsert pass every listed room holds its new name, and every unlisted row is unchanged. |
| Reconcile.LoadDevicesReconciles | smartthings.py:384-414 | After `loadDevices` both tables stay valid, and every capability row belongs to a stored device. Known devices missing from the listing are hidden. Unlisted rows of other locations are untouched. A stored device has its room, name, label, category and handler refreshed. A new device is inserted, and old capability rows never change. |
| Reconcile.LoadDevicesPlan | smartthings.py:388-413 | The devices still pending after the upsert pass are all stored, and hiding them gives the state `loadDevices` promises. |
| Reconcile.UpsertDevicesRows | smartthings.py:394-410 | After the upsert pass every listed device holds its refreshed or new row, and every unlisted device row is unchanged. |
| Reconcile.UpsertDevicesAddsOnlyNew | smartthings.py:402-408 | Every capability row the pass adds belongs to a device that was new, and was listed in one of its components. |
| Reconcile.UpsertDevicesAddsAllNew | smartthings.py:405-408 | Every capability listed by a new device's components gets a row. |
| Reconcile.UpsertDevicesKeepsCapabilityRows | smartthings.py:399-401 | Updating an existing device never touches the capability table's existing rows. |
| Reconcile.UpsertDevicesKeepsOwnership | smartthings.py:403-408 | Every capability row still belongs to a stored device after the pass. |
| Reconcile.InsertCapabilitiesFacts | smartthings.py:405-408 | A new device's capability rows are inserted visible, with empty state, sequence 99 and no timestamp, one per capability id. |
| Reconcile.ForLocationMembers | smartthings.py:587-588 | The scene filter keeps exactly the listed scenes of this location, in order. |
| Reconcile.LoadScenesReconciles | smartthings.py:578-604 | After `loadAllScenes` the scene table's keys are the old keys plus the kept scenes, minus the known scenes the listing dropped. A kept stored scene is renamed. A new scene is inserted visible with sequence 99. Other locations' scenes that the kept listing does not name are untouched. |
| Reconcile.LoadScenesKeepsOthers | smartthings.py:584-585 | Scenes of other locations that the kept listing does not name keep their rows. |
| Reconcile.LoadScenesUpsertsKept | smartthings.py:592-597 | Each kept scene ends up renamed, or is inserted new. |
| Reconcile.LoadScenesNewAtLocation | smartthings.py:594-595 | Every scene row the load creates belongs to this location. |
| Reconcile.LoadScenesPlan | smartthings.py:583-604 | The scenes pending after the upsert pass, once deleted, give the state `loadAllScenes` promises. |
| Reconcile.DroppedSceneIsDeleted | smartthings.py:602-604 | A stored scene of the location that the listing no longer reports is deleted, not hidden. |
| LiveView.VisibleRoomsAreTheVisibleRows | smartthings.py:364-371 | `readRooms` shows exactly the visible rooms of the location, once each. Each has its stored name, sequence and guest access, and an empty device list. |
| LiveView.ReadDevicesPlaces | smartthings.py:423-442 | `readDevices` empties every room, then places each visible device of the location. A device with a room id of 0 goes to the presence list. Any other device goes to the shown room with its id. Presence entries carry the display label and the device's visible listed capabilities. |
| LiveView.MembersExactly | smartthings.py:436-442 | A slot's devices are exactly the scanned devices whose capabilities are non-empty and whose room maps to that slot. |
| LiveView.PlaceAllIsMembers | smartthings.py:426-442 | Placing the devices one by one appends to the presence list and to each room exactly that slot's members, in scan order. |
| LiveView.DeviceOfUnlistedRoomIsDropped | smartthings.py:439-442 | A device whose room is not shown appears nowhere in the view. |
| LiveView.AnyVisibleCapabilityMeans | smartthings.py:430-431 | `readDevices` succeeds exactly when some scanned device has a visible capability row, listed or not. |
| LiveView.AllowedCapsAreListedRows | smartthings.py:430-435 | A device's shown capabilities are exactly its scanned rows whose capability is in `CAP_LIST`, with their stored state, sequence and timestamp. |
| LiveView.DeviceCapsAreVisibleListedRows | smartthings.py:430-435 | Every shown capability is a visible, listed row of the device holding the shown state, and every such row is shown. |
| LiveView.AppendToRooms | smartthings.py:440-442 | Appending a device adds it to every room with the matching id and leaves the other rooms as they were. |
| LiveView.ClearDevices | smartthings.py:424-425 | Every room keeps its fields and gets an empty device list. |
| LiveView.RoomViews | smartthings.py:366-369 | One view entry per scanned room, built from its row. |
| LiveView.StoredScenesOf | smartthings.py:615-618 | One scene entry per scanned scene row, carrying the whole row. |
| LiveView.FetchedScenes | smartthings.py:587-590 | One `{sceneId, sceneName}` entry per kept scene, in listing order. |
| Refresh.RefreshCapsAt | smartthings.py:468-474 | After a status read, each shown capability holds the value picked for it from the reply, or is unchanged when none is reported. |
| Refresh.RefreshReadsAllowList | smartthings.py:466-477 | Capabilities outside `CAP_LIST` are never changed. A reported listed capability takes the reply's value under its own attribute. Only presence entries take the new timestamp. |
| Refresh.StatusRowsMatchTree | smartthings.py:471-477 | After a device's status read, the store row of each refreshed capability holds the view's new value as text, stamped with the read time. Rows of other devices and capabilities are unchanged. |
| Refresh.StatusWritesMeansRows | smartthings.py:468-477 | Writing the rows pair by pair in `DEV_LIST` order gives the same table as the specification of the write pass. |
| Refresh.HitWithIsPick | smartthings.py:489-498 | A device's status read counts as a hit exactly when some shown capability of it gets a value. |
| Refresh.AnyDeviceHitMeans | smartthings.py:479-498 | The status pass's flag is set exactly when some room device had a hit. |
| Refresh.RefreshDevicesAt | smartthings.py:459-477 | Each device in the list is refreshed with its own reply, or kept when the fetch failed. |
| Refresh.RefreshRoomsAt | smartthings.py:479-497 | Each room's devices are refreshed with their own replies, and the rooms keep their fields. |
| Refresh.AnyAnsweredMeans | smartthings.py:513-536 | The health pass's flag is set exactly when some device, presence or room, answered. |
| Refresh.HealthDevicesAt | smartthings.py:513-521 | Each device that answered takes the reported health, and the others are unchanged. |
| Refresh.HealthRowsMatchTree | smartthings.py:519-523 | The health written to a device's row equals the health shown for it, and no row is added or removed. |
| Refresh.HealthRoomsAt | smartthings.py:525-534 | Each room's devices take their reported health. |
| Refresh.StatusRowsAllKeys | smartthings.py:475-477 | The status pass adds no capability row and removes none. |
| Refresh.HealthRowsKeys | smartthings.py:522 | The health pass adds no device row and removes none. |
| Refresh.ApplyPair | smartthings.py:471-477 | One reported attribute sets every shown capability with that id, and writes its row, stamped, exactly when such a capability is shown. |
| Refresh.ReadPair | smartthings.py:468-477 | One step of the `DEV_LIST` loop extends the refreshed capabilities by that pair. It writes the row exactly when the pair is reported and its capability is shown. |
| Refresh.ReadThroughPairs | smartthings.py:468-477 | The `DEV_LIST` loop gives `RefreshCapsWith` and `StatusRowsWith`, and reports whether any shown capability got a value. |
| Refresh.RefreshDevice | smartthings.py:466-477 | One device's status reply gives `RefreshCaps` in the view and `StatusRows` in the store, with its hit flag. |
| Refresh.RefreshEntry | smartthings.py:460-477 | One device is fetched and, on an answer, refreshed. A failed fetch leaves it and the store unchanged. |
| Refresh.RefreshList | smartthings.py:459-477 | The presence loop gives `RefreshDevices` and `StatusRowsAll`, and reports whether any device had a hit. |
| Refresh.RefreshRoomList | smartthings.py:479-498 | The room loops give `RefreshRooms` and `StatusRowsRooms`, and report whether any room device had a hit. |
| Refresh.HealthList | smartthings.py:513-523 | The presence health loop gives `HealthDevices` and `HealthRows`, and reports whether any device answered. |
| Refresh.HealthRoomList | smartthings.py:525-536 | The room health loops give `HealthRooms` and `HealthRowsRooms`, and report whether any device answered. |
| Events.SetStateSettles | smartthings.py:651-655 | After an event the first matching capability holds the new value, and the same event again changes nothing. |
| Events.FirstStateFacts | smartthings.py:651-653 | The state compared against is the first matching capability's, and there is one exactly when some capability matches. |
| Events.SetStateAt | smartthings.py:636-638 | An event sets the state of every matching capability of a device and leaves the rest unchanged. |
| Events.SetStateInDevicesSettles | smartthings.py:634-638 | A presence event leaves its first matching capability holding the new value, and is idempotent. |
| Events.FirstInDevicesFacts | smartthings.py:634-638 | The first match among a device list exists exactly when some device with the id has the capability. |
| Events.SetStateInRoomsSettles | smartthings.py:648-655 | A room event leaves its first match holding the new value, and is idempotent. |
| Events.FirstInRoomsFacts | smartthings.py:648-653 | The first match among the rooms exists exactly when some room device with the id has the capability. |
| Events.RepeatedEventIsSilent | smartthings.py:653-656 | The same room event delivered twice emits nothing the second time and changes nothing. |
| Events.UnknownTargetIsIgnored | smartthings.py:648-663 | An event for a device or capability that no room holds changes nothing and emits nothing. |
| Events.ChangedStateIsEmitted | smartthings.py:653-663 | An event whose first match held a different value emits `device_chg` with the event's value and stores it. |
| Events.SetInCaps | smartthings.py:651-655 | The loop over a device's capabilities sets every match. It clears the emit flag exactly when a match already held the value. It writes exactly when the flag survives to the first match and that match differed. |
| Events.SetInDevices | smartthings.py:634-646 | The loop over a device list gives the specification's new list. It reports whether some match exists, and whether the first one differed. |
| Events.SetInDevice | smartthings.py:634-655 | One device of the event loop: the capability loop runs only for the device with the id. It clears the flag when a match already held the value, and writes when the flag survives to a differing first match. |
| Events.SetInRooms | smartthings.py:648-663 | The room loops give the specification's new rooms, and write exactly when the first match held a different value. |
| Events.SetHealthInRooms | smartthings.py:555-563 | The room search finds the device exactly when some room holds it, and sets the health of the first such device only. |
| Events.HealthEventTouchesFirstMatchOnly | smartthings.py:555-562 | A health event changes only the first device with the id, and only its health. Every other room and device is unchanged. |
| Events.FirstIndex | smartthings.py:556-557 | The first position of a device id, or the list length when it is absent. |
| Events.FirstRoomWith | smartthings.py:555-557 | The first room holding a device id, or the room count when none does. |
| Commands.Gate | smartthings.py:755-763 | A caller passes the guest gate exactly when they are not a guest, or the target's row grants access 1. A guest with no row for the target raises `UnboundLocalError`. A guest whose row holds anything else, NULL included, gets False. |
| Commands.DeviceCommand | smartthings.py:768-788 | A level change sends `setLevel` with `int(value)` as its one argument, and fails exactly when `int()` does. Any other capability sends the value as the command, with no arguments. Either way the component is `main`. |
| Commands.ChangeDevice | smartthings.py:752-795 | A guest whose device row holds anything but 1 gets False and nothing is posted. A guest with no row raises `UnboundLocalError`. Past the gate, a level that `int()` rejects raises `ValueError` before any post. Otherwise exactly one command for the device is posted, and the platform's answer is the result. |
| Commands.StoredLevelDispatchesSameArgument | smartthings.py:768-779 | A level read back from the store as text dispatches the same `setLevel` call as the integer itself. |
| Commands.ThermostatCommand | smartthings.py:814-824 | A heating or cooling setpoint becomes `setHeatingSetpoint` or `setCoolingSetpoint` with `int(value)`. Any other capability sends the value as the command with empty arguments. |
| Commands.BuildThermostatCommands | smartthings.py:813-828 | The payload holds one command per setting, in order. It exists exactly when every setting's `int()` succeeds. |
| Commands.ChangeThermostat | smartthings.py:797-837 | A guest whose device row holds anything but 1 gets False and nothing is posted. A guest with no row raises `UnboundLocalError`. Past the gate, a setpoint that `int()` rejects raises `ValueError` before any post. Otherwise one command per setting is posted to the device, in order, and the platform's answer is the result. |
| Commands.RunScene | smartthings.py:839-857 | A guest whose scene row holds anything but 1 gets False and nothing is posted. A guest with no row raises `UnboundLocalError`. Past the gate, the scene is executed and the platform's answer is the result. |
| Config.ScanLocationItems | smartthings.py:895-902 | The loop over the location items computes the scan function. |
| Config.ScanLocationKeepsLastNickname | smartthings.py:896-902 | The nickname written is empty exactly when no item sets one without a location id. Otherwise it is the last such item's. |
| Config.ScanLocationKeepsLastEmail | smartthings.py:896-902 | The email written is empty exactly when no item sets one without a location id or nickname. Otherwise it is the last such item's. |
| Config.ApplyConfigs | smartthings.py:907-934 | Config updates never add or remove a row, and never reorder rows. |
| Config.LastFor | smartthings.py:907-934 | The last config entry naming a key, or none when no entry names it. |
| Config.ApplyConfigsLastWins | smartthings.py:907-934 | With overriding updates, the last entry naming a row decides it, and unnamed rows keep their values. |
| Config.RoomConfigsApply | smartthings.py:907-914 | Each configured room takes the last entry's sequence, visibility and guest access, with defaults 99, 1 and 0. Its name and location stay. |
| Config.DeviceConfigsApply | smartthings.py:916-924 | Each configured device takes the last entry's sequence, visibility, guest access and icon, with defaults 99, 1, 0 and empty. |
| Config.CapabilityConfigsApply | smartthings.py:926-934 | Each configured capability takes the last entry's sequence and visibility, with defaults 99 and 1. |
| Config.UpdateConfigs | smartthings.py:887-937 | The result is true exactly when any section is non-empty. The location row is written only for a non-empty location section. Each table takes its configs. Scenes are untouched. |
| Engine.SmartThings.constructor | smartthings.py:36-44 | A new engine has an empty live view. |
| Engine.SmartThings.LoadRooms | smartthings.py:322-356 | The result is whether the fetch answered. On an answer the room table becomes `RoomsAfterLoad`; otherwise it is unchanged. |
| Engine.SmartThings.ReconcileRooms | smartthings.py:335-351 | The two passes of `loadRooms` leave the table equal to `RoomsAfterLoad`, and valid. |
| Engine.SmartThings.UpsertRoomRows | smartthings.py:335-348 | The upsert loop gives `UpsertRooms`, and returns the known rooms the listing did not name. |
| Engine.SmartThings.HideRoomRows | smartthings.py:349-351 | The hide loop hides exactly the pending rooms. |
| Engine.SmartThings.ReadRooms | smartthings.py:358-372 | The rooms shown are `VisibleRooms`, and the result is whether any room row was visible. |
| Engine.SmartThings.LoadDevices | smartthings.py:374-415 | The result is whether the fetch answered with at least one device. On an answer the tables become `DevicesAfterLoad`; otherwise they are unchanged. |
| Engine.SmartThings.ReconcileDevices | smartthings.py:388-413 | The two passes of `loadDevices` give `DevicesAfterLoad`, keep both tables valid, and keep capability ownership. |
| Engine.SmartThings.UpsertDeviceRows | smartthings.py:388-410 | The upsert loop gives `UpsertDevices`, and returns the known devices the listing did not name. |
| Engine.SmartThings.UpsertDeviceRow | smartthings.py:395-408 | One device is updated, or inserted with its capability rows. |
| Engine.SmartThings.InsertCapabilityRows | smartthings.py:405-408 | The nested loop inserts one capability row per capability of each component, in order. |
| Engine.SmartThings.HideDeviceRows | smartthings.py:411-413 | The hide loop hides exactly the pending devices. |
| Engine.SmartThings.ReadDevices | smartthings.py:417-445 | The view becomes `DevicesView` over the shown rooms. The result is whether any scanned device had a visible capability row. |
| Engine.SmartThings.PlaceDevice | smartthings.py:427-442 | One device is placed in its slot with its shown capabilities. |
| Engine.SmartThings.ScanCapabilities | smartthings.py:430-435 | The capability loop gives `DeviceCaps`, and reports whether any visible row was scanned. |
| Engine.SmartThings.ClearRoomDevices | smartthings.py:424-425 | Every room's device list is emptied. |
| Engine.SmartThings.AppendToRoom | smartthings.py:440-442 | The device is appended to every room with its id. |
| Engine.SmartThings.LoadAllDevicesStatus | smartthings.py:447-500 | Presence and room devices are refreshed from their replies, and the rows are written. The result is whether a room device had a hit. |
| Engine.SmartThings.LoadAllDevicesHealth | smartthings.py:502-538 | Every answering device takes its health in the view and its row. The result is whether any device answered. |
| Engine.SmartThings.UpdateDeviceHealth | smartthings.py:540-563 | With presence devices shown it raises `KeyError` and changes nothing. Otherwise only the first room device with the id takes the health and has its row written. The result is whether any room held it. |
| Engine.SmartThings.LoadAllScenes | smartthings.py:566-606 | The result is whether the fetch answered. On an answer the view lists the kept scenes and the table becomes `ScenesAfterLoad`; otherwise both are unchanged. |
| Engine.SmartThings.ReconcileScenes | smartthings.py:583-604 | The two passes of `loadAllScenes` give `FetchedScenes` and `ScenesAfterLoad`, and keep the table valid. |
| Engine.SmartThings.UpsertSceneRows | smartthings.py:587-600 | The upsert loop lists the kept scenes, upserts their rows, and returns the known scenes the listing dropped. |
| Engine.SmartThings.UpsertSceneRow | smartthings.py:589-597 | One kept scene is listed and upserted. The call reports whether it was already stored. |
| Engine.SmartThings.DeleteSceneRows | smartthings.py:602-604 | The delete loop deletes exactly the pending scenes. |
| Engine.SmartThings.ReadAllScenes | smartthings.py:608-619 | The scenes shown are `VisibleScenes`, and the result is whether any scene row was visible. |
| Engine.SmartThings.UpdateDevice | smartthings.py:621-665 | A presence event sets every match and emits `presence_chg` whenever one matched. Any other event follows `RoomEvent`. The store row is written exactly when something is emitted. |
| Engine.SmartThings.LoadData | smartthings.py:166-183 | Each load step runs only when all earlier ones succeeded. The result is true exactly when all four did. |
| Engine.SmartThings.StatusAndHealth | smartthings.py:194-195 | The status pass, then the health pass only when the status pass returned true, give `RefreshPass`. |
| Engine.SmartThings.RefreshChain | smartthings.py:193-203 | Status, health and scenes run in a chain. The scenes load only when health succeeded. |
| Engine.SmartThings.ReadStore | smartthings.py:190-192 | The app-config, room and device reads run in a chain, with their results. |
| Engine.SmartThings.ReadData | smartthings.py:186-218 | When the location is read, the view is reset. Each read runs only after the previous one succeeded. With `refresh`, the chain from `RefreshPass` runs and scenes load only when health succeeded. The scenes are then read whatever the refresh did, and the result is true when the refresh succeeded OR the scene read found a row. |

## Left out

- HTTP, SQLite, JSON and the clock. Each platform reply is a parameter: an `Option` for a listing, or a function from device id for status and health. Each command post is a function. The clock is a `now` string.
- Row order of SQLite selects without ORDER BY is modelled as insertion order.
- `loadLocation`, `loadAppConfig`, `readLocation` and `readAppConfig` are boolean inputs. The app table is not modelled. The location table is modelled only as far as `updateConfigs` writes it.
  - The model keeps one effect of `readLocation`: it resets `presence`, `rooms` and `scenes` (the rebuilt location dict has no `scenes` key, shown here as an empty scene list).
- `initialize`, `createDB`, `getInstalledApps`, the four subscription calls, `getConfig`, `getPresence`, `getScenes`, `updatePresenceConfigs` and `updateSceneConfigs` are not part of this model. They are setup, admin reads and webhook plumbing around the core.
- The `print` output and the JSON text of emitted events are not modelled. An emission is a value holding the channel, device, capability and value.
- Concurrency and aliasing of the shared view dicts (the Flask and socket threads) are not modelled.
- Floats, booleans and `null` among JSON values are not modelled. A value is a string or an integer.
- `Values.ParseInt`: accepts an optional sign and ASCII digits only. Python's `int()` also takes surrounding whitespace, underscores and non-ASCII digits. The contract states only that success needs a non-empty string.
- `Values.ToInt`: the contract covers integer input. String input is `ParseInt`.
- Paths that crash in the source are excluded by preconditions instead of being modelled:
  - `list.remove` raises `ValueError` on a duplicate id in a listing;
  - a second capability row with the same key is rejected by the primary key;
  - a device without components or categories raises `IndexError`;
  - a listed id whose stored row belongs to another location.
- `Reconcile.RoomsFitLocation`, `Reconcile.DevicesFitLocation` and `Reconcile.ScenesFitLocation`: these preconditions assume platform ids are unique across locations. In the source, a listed id stored under another location is updated by bare id, gets row count 1, and then `list.remove` raises `ValueError`, because the pending list holds only this location's ids (lines 344, 401 and 597). The model does not capture that raise.
- `Config.WriteLocation`: `location.nickname` is `UNIQUE NOT NULL` (line 73). Writing a nickname that another location already holds raises `IntegrityError` at line 904. The model writes it without that check.
- On a non-200 rooms reply, `loadRooms` reads `r.status_cd`, an attribute that does not exist, and so raises `AttributeError` at line 355. `loadData` does not catch it, so it propagates to the caller. `Engine.SmartThings.LoadRooms` turns that raise into a false result instead.
- `LiveView.Members`, `Refresh.RefreshCapsWith`, `Events.SetState`, `Events.SetStateInDevices` and `Events.SetStateInRooms`: their own contracts give only lengths. The pointwise facts are in the `...At`, `...Facts` and `...Exactly` lemmas listed above.
