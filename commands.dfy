/**
 * Command dispatch (`changeDevice`, `changeThermostat`, `runScene`): the
 * Guest access gate and the command payload posted to the platform. The post
 * itself is a parameter: it answers whether the platform returned 200.
 */
module Commands {
  import opened Wrappers
  import opened Values
  import opened Store

  const MainComponent: string := "main"
  const GuestRole: string := "Guest"
  const SwitchLevel: string := "switchLevel"

  /** The signed-in user, as far as the gate reads it. */
  datatype User = User(role: string)

  /**
   * One entry of the `commands` list. `arguments` is None when the entry has
   * no `arguments` key at all (a plain `changeDevice` command).
   */
  datatype Command = Command(component: string, capability: string, command: Value, arguments: Option<seq<int>>)

  /** What gets posted: `devices/{id}/commands` with a body, or `scenes/{id}/execute`. */
  datatype Request = DeviceCommands(deviceId: string, commands: seq<Command>) | ExecuteScene(sceneId: string)

  /** The request posted, if the call got that far, and what the call returned or raised. */
  datatype Dispatch = Dispatch(sent: Option<Request>, result: Outcome<bool>)

  predicate IsGuest(user: Option<User>) {
    user.Some? && user.value.role == GuestRole
  }

  // ----------------------------------------------------------------- gate

  /**
   * The guest gate. `row` is what the `guest_access` lookup bound: None when
   * the select returned no row (the loop variable is then never assigned and
   * reading it raises), Some(None) for a NULL column. A non-guest always
   * passes; a guest passes only on a row holding exactly 1.
   */
  function Gate(user: Option<User>, row: Option<Option<int>>): (r: Outcome<bool>)
    ensures r == Returned(true) <==> !IsGuest(user) || row == Some(Some(1))
    ensures r.Raised? <==> IsGuest(user) && row.None?
    ensures r.Raised? ==> r.error == UnboundLocalError("row")
    ensures r == Returned(false) <==> IsGuest(user) && row.Some? && row != Some(Some(1))
  {
    if !IsGuest(user) then Returned(true)
    else if row.None? then Raised(UnboundLocalError("row"))
    else if row.value.None? || row.value.value != 1 then Returned(false)
    else Returned(true)
  }

  /** `select guest_access from device where device_id=?`, whatever the location. */
  function DeviceAccess(t: Table<string, DeviceRow>, deviceId: string): Option<Option<int>> {
    if deviceId in t.rows then Some(t.rows[deviceId].guestAccess) else None
  }

  function SceneAccess(t: Table<string, SceneRow>, sceneId: string): Option<Option<int>> {
    if sceneId in t.rows then Some(t.rows[sceneId].guestAccess) else None
  }

  /** A call the gate stopped: nothing is posted and the gate's answer is the call's. */
  function Stopped(gate: Outcome<bool>): Dispatch {
    Dispatch(None, gate)
  }

  // --------------------------------------------------------- changeDevice

  /**
   * The single command of `changeDevice`: a level becomes `setLevel` with
   * `int(value)` as its one argument (None when `int` raises); any other
   * capability sends the value itself as the command, with no arguments key.
   */
  function DeviceCommand(capability: string, value: Value): (r: Option<Command>)
    ensures r.Some? ==> r.value.component == MainComponent && r.value.capability == capability
    ensures capability == SwitchLevel ==>
      && (r.Some? <==> ToInt(value).Some?)
      && (r.Some? ==> r.value.command == Text("setLevel") && r.value.arguments == Some([ToInt(value).value]))
    ensures capability != SwitchLevel ==> r.Some? && r.value.command == value && r.value.arguments.None?
  {
    if capability == SwitchLevel then
      match ToInt(value)
      case Some(n) => Some(Command(MainComponent, capability, Text("setLevel"), Some([n])))
      case None => None
    else Some(Command(MainComponent, capability, value, None))
  }

  function ChangeDevice(devices: Table<string, DeviceRow>, deviceId: string, capability: string, value: Value,
                        user: Option<User>, post: Request -> bool): (d: Dispatch)
    // A guest without access to the device gets False (or the unbound-row error) before any post.
    ensures IsGuest(user) && DeviceAccess(devices, deviceId) != Some(Some(1)) ==> d.sent.None? && d.result != Returned(true)
    ensures IsGuest(user) && deviceId !in devices.rows ==> d == Dispatch(None, Raised(UnboundLocalError("row")))
    ensures IsGuest(user) && deviceId in devices.rows && devices.rows[deviceId].guestAccess != Some(1) ==> d == Dispatch(None, Returned(false))
    // A level that `int()` rejects raises ValueError before anything is posted.
    ensures Gate(user, DeviceAccess(devices, deviceId)) == Returned(true) && DeviceCommand(capability, value).None? ==>
      d == Dispatch(None, Raised(ValueError))
    // Past the gate exactly one command is posted for the device, and its answer is the result.
    ensures d.sent.Some? ==>
      && d.sent.value.DeviceCommands? && d.sent.value.deviceId == deviceId
      && |d.sent.value.commands| == 1 && Some(d.sent.value.commands[0]) == DeviceCommand(capability, value)
      && d.result == Returned(post(d.sent.value))
    ensures Gate(user, DeviceAccess(devices, deviceId)) == Returned(true) ==>
      (d.sent.Some? <==> DeviceCommand(capability, value).Some?)
    ensures d.sent.None? && d.result.Returned? ==> d.result == Returned(false)
  {
    var gate := Gate(user, DeviceAccess(devices, deviceId));
    if gate != Returned(true) then Stopped(gate)
    else
      match DeviceCommand(capability, value)
      case None => Dispatch(None, Raised(ValueError))
      case Some(c) =>
        var req := DeviceCommands(deviceId, [c]);
        Dispatch(Some(req), Returned(post(req)))
  }

  /**
   * A level read back from the store, where it is kept as text, dispatches
   * the same `setLevel` argument as the number itself.
   */
  lemma StoredLevelDispatchesSameArgument(devices: Table<string, DeviceRow>, deviceId: string, level: int,
                                          user: Option<User>, post: Request -> bool)
    requires !IsGuest(user)
    ensures var d := ChangeDevice(devices, deviceId, SwitchLevel, Text(StoredText(Int(level))), user, post);
      && d.sent.Some?
      && d.sent.value.commands == [Command(MainComponent, SwitchLevel, Text("setLevel"), Some([level]))]
      && d == ChangeDevice(devices, deviceId, SwitchLevel, Int(level), user, post)
  {
    StoredIntParsesBack(level);
  }

  // ------------------------------------------------------ changeThermostat

  /** One entry of the thermostat form: a capability and the value chosen for it. */
  datatype Setting = Setting(capability: string, value: Value)

  /** The setpoint command a capability takes, if it is a setpoint. */
  function SetpointCommand(capability: string): Option<string> {
    if capability == "thermostatHeatingSetpoint" then Some("setHeatingSetpoint")
    else if capability == "thermostatCoolingSetpoint" then Some("setCoolingSetpoint")
    else None
  }

  /**
   * The payload entry for one setting: a setpoint becomes its `set...Setpoint`
   * command with `int(value)` (None when `int` raises); anything else sends the
   * value as the command with an empty argument list.
   */
  function ThermostatCommand(s: Setting): (r: Option<Command>)
    ensures r.Some? ==> r.value.component == MainComponent && r.value.capability == s.capability && r.value.arguments.Some?
    ensures SetpointCommand(s.capability).Some? ==>
      && (r.Some? <==> ToInt(s.value).Some?)
      && (r.Some? ==> r.value.command == Text(SetpointCommand(s.capability).value) && r.value.arguments == Some([ToInt(s.value).value]))
    ensures SetpointCommand(s.capability).None? ==> r == Some(Command(MainComponent, s.capability, s.value, Some([])))
  {
    match SetpointCommand(s.capability)
    case Some(cmd) =>
      (match ToInt(s.value)
       case Some(n) => Some(Command(MainComponent, s.capability, Text(cmd), Some([n])))
       case None => None)
    case None => Some(Command(MainComponent, s.capability, s.value, Some([])))
  }

  /**
   * The payload loop of `changeThermostat`: one entry per setting, in order;
   * the first setpoint whose value is not an integer raises ValueError, and
   * the loop stops there (None).
   */
  method BuildThermostatCommands(settings: seq<Setting>) returns (r: Option<seq<Command>>)
    ensures r.Some? <==> forall i :: 0 <= i < |settings| ==> ThermostatCommand(settings[i]).Some?
    ensures r.Some? ==> |r.value| == |settings| && forall i :: 0 <= i < |settings| ==> Some(r.value[i]) == ThermostatCommand(settings[i])
  {
    var payload: seq<Command> := [];
    var i := 0;
    while i < |settings|
      invariant 0 <= i <= |settings| && |payload| == i
      invariant forall k :: 0 <= k < i ==> Some(payload[k]) == ThermostatCommand(settings[k])
    {
      var c := ThermostatCommand(settings[i]);
      if c.None? {
        return None;
      }
      payload := payload + [c.value];
      i := i + 1;
    }
    return Some(payload);
  }

  method ChangeThermostat(devices: Table<string, DeviceRow>, deviceId: string, settings: seq<Setting>,
                          user: Option<User>, post: Request -> bool) returns (d: Dispatch)
    ensures IsGuest(user) && DeviceAccess(devices, deviceId) != Some(Some(1)) ==> d.sent.None? && d.result != Returned(true)
    ensures IsGuest(user) && deviceId !in devices.rows ==> d == Dispatch(None, Raised(UnboundLocalError("row")))
    ensures IsGuest(user) && deviceId in devices.rows && devices.rows[deviceId].guestAccess != Some(1) ==> d == Dispatch(None, Returned(false))
    // A setpoint that `int()` rejects raises ValueError before anything is posted.
    ensures Gate(user, DeviceAccess(devices, deviceId)) == Returned(true) && (exists i :: 0 <= i < |settings| && ThermostatCommand(settings[i]).None?) ==>
      d == Dispatch(None, Raised(ValueError))
    // Past the gate, one command per setting is posted, in order, and the post's answer is the result.
    ensures d.sent.Some? ==>
      && d.sent.value.DeviceCommands? && d.sent.value.deviceId == deviceId
      && |d.sent.value.commands| == |settings|
      && (forall i :: 0 <= i < |settings| ==> Some(d.sent.value.commands[i]) == ThermostatCommand(settings[i]))
      && d.result == Returned(post(d.sent.value))
    ensures Gate(user, DeviceAccess(devices, deviceId)) == Returned(true) ==>
      (d.sent.Some? <==> forall i :: 0 <= i < |settings| ==> ThermostatCommand(settings[i]).Some?)
    ensures d.sent.None? && d.result.Returned? ==> d.result == Returned(false)
  {
    var gate := Gate(user, DeviceAccess(devices, deviceId));
    if gate != Returned(true) {
      return Stopped(gate);
    }
    var payload := BuildThermostatCommands(settings);
    if payload.None? {
      return Dispatch(None, Raised(ValueError));
    }
    var req := DeviceCommands(deviceId, payload.value);
    d := Dispatch(Some(req), Returned(post(req)));
  }

  // --------------------------------------------------------------- runScene

  function RunScene(scenes: Table<string, SceneRow>, sceneId: string, user: Option<User>, post: Request -> bool): (d: Dispatch)
    ensures IsGuest(user) && SceneAccess(scenes, sceneId) != Some(Some(1)) ==> d.sent.None? && d.result != Returned(true)
    ensures IsGuest(user) && sceneId !in scenes.rows ==> d == Dispatch(None, Raised(UnboundLocalError("row")))
    ensures IsGuest(user) && sceneId in scenes.rows && scenes.rows[sceneId].guestAccess != Some(1) ==> d == Dispatch(None, Returned(false))
    ensures Gate(user, SceneAccess(scenes, sceneId)) == Returned(true) ==>
      d == Dispatch(Some(ExecuteScene(sceneId)), Returned(post(ExecuteScene(sceneId))))
    ensures d.sent.None? && d.result.Returned? ==> d.result == Returned(false)
  {
    var gate := Gate(user, SceneAccess(scenes, sceneId));
    if gate != Returned(true) then Stopped(gate)
    else Dispatch(Some(ExecuteScene(sceneId)), Returned(post(ExecuteScene(sceneId))))
  }
}
