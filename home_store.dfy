/** The app's observable store: which home is shown, the lists derived from
    it, the alert it raises when a control is not supported, and the writes
    its controls ask the framework for. A write is modelled as the request
    the store makes (the characteristic and the value), or no request; the
    framework performs it asynchronously and its completion is not part of
    this model. */
module Store {
  import opened SwiftStd
  import opened HomeKit
  import opened AccessoryExtensions

  // The alerts of the control methods whose lookup fails.
  const PowerToggleUnsupported := "This accessory doesn't support power toggling."
  const BrightnessUnsupported := "This accessory doesn't support brightness adjustment."
  const ColorUnsupported := "This accessory doesn't support color change."
  const TemperatureUnsupported := "Thermostat does not support target temperature."
  const PositionUnsupported := "Window Covering does not support position state."
  const FanSpeedUnsupported := "Fan does not support speed adjustment."

  /** The store asks the framework to write `value` to `target`. */
  datatype WriteRequest = WriteRequest(target: Characteristic, value: Value)

  /** The two characteristics a colour change writes (the values written are
      floating-point conversions of a colour, not modelled). */
  datatype ColorTargets = ColorTargets(hue: Characteristic, saturation: Characteristic)

  // ---------------------------------------------------------------------
  // Derived lists

  /** The app's room test: the accessory's room, if any, has the room's
      identifier. */
  function InRoom(accessory: Accessory, room: Room): (r: bool)
    ensures r ==> accessory.room.Some?
    ensures accessory.room == Some(room) ==> r
    ensures accessory.room.Some? ==> (r <==> accessory.room.value.uniqueIdentifier == room.uniqueIdentifier)
  {
    accessory.room.Some? && accessory.room.value.uniqueIdentifier == room.uniqueIdentifier
  }

  /** The accessories listed under `room`. */
  function AccessoriesInRoom(accessories: seq<Accessory>, room: Room): (r: seq<Accessory>)
    ensures forall a :: a in r <==> a in accessories && a.room.Some? &&
                                     a.room.value.uniqueIdentifier == room.uniqueIdentifier
    ensures forall a :: multiset(r)[a] == if InRoom(a, room) then multiset(accessories)[a] else 0
    ensures IsSubsequence(r, accessories)
  {
    Filter(accessories, (a: Accessory) => InRoom(a, room))
  }

  /** The scenes the app shows: those with at least one action. */
  function NonEmptyActionSets(sets: seq<ActionSet>): (r: seq<ActionSet>)
    ensures forall s :: s in r <==> s in sets && |s.actions| > 0
    ensures forall s :: multiset(r)[s] == if |s.actions| > 0 then multiset(sets)[s] else 0
    ensures IsSubsequence(r, sets)
  {
    Filter(sets, (s: ActionSet) => |s.actions| > 0)
  }

  /** `table` is exactly the grouping of `accessories` by `rooms`. */
  ghost predicate IsRoomTable(table: map<Room, seq<Accessory>>, rooms: seq<Room>, accessories: seq<Accessory>) {
    table.Keys == (set r | r in rooms) &&
    forall r :: r in table ==> table[r] == AccessoriesInRoom(accessories, r)
  }

  /** The grouping is exact: under each room are precisely the accessories
      assigned to a room with its identifier, and an accessory with no room
      is under none. */
  lemma RoomTableMembership(
    table: map<Room, seq<Accessory>>, rooms: seq<Room>, accessories: seq<Accessory>, a: Accessory)
    requires IsRoomTable(table, rooms, accessories)
    ensures forall r :: r in table ==>
              (a in table[r] <==> a in accessories && a.room.Some? &&
                                  a.room.value.uniqueIdentifier == r.uniqueIdentifier)
    ensures a.room.None? ==> forall r :: r in table ==> a !in table[r]
    ensures a in accessories && a.room.Some? && a.room.value in rooms ==> a in table[a.room.value]
  {
  }

  /** The grouping is determined by the rooms and the accessories alone. */
  lemma RoomTableUnique(
    t1: map<Room, seq<Accessory>>, t2: map<Room, seq<Accessory>>, rooms: seq<Room>, accessories: seq<Accessory>)
    requires IsRoomTable(t1, rooms, accessories) && IsRoomTable(t2, rooms, accessories)
    ensures t1 == t2
  {
  }

  // ---------------------------------------------------------------------
  // Write decisions

  /** The value a toggle asks for: the negation of the current value read as
      a Boolean, a missing or non-Boolean value counting as `false`. */
  function PowerAfterToggle(current: Option<Value>): (on: bool)
    ensures current == Some(BoolValue(true)) ==> !on
    ensures current == Some(BoolValue(false)) ==> on
    ensures !(current.Some? && current.value.BoolValue?) ==> on
  {
    !AsBool(current).GetOr(false)
  }

  /** The write a toggle asks for once the power characteristic is found:
      `true` unless the value casts to `true`, to that same characteristic. */
  function ToggleWrite(power: Characteristic): (w: WriteRequest)
    ensures w.target == power && w.value.BoolValue?
    ensures w.value.b <==> AsBool(power.value) != Some(true)
  {
    WriteRequest(power, BoolValue(PowerAfterToggle(power.value)))
  }

  /** The power state the app reads: exactly `true` counts as on. */
  function PowerIsOn(accessory: Accessory, st: ServiceType): (r: bool)
    ensures r ==> Find(accessory, st, PowerState).Some?
    ensures Find(accessory, st, PowerState).Some? ==>
              (r <==> AsBool(Find(accessory, st, PowerState).value.value) == Some(true))
  {
    var power := Find(accessory, st, PowerState);
    power.Some? && power.value.value == Some(BoolValue(true))
  }

  /** Turn a light on after a brightness write above zero: ask for `true`
      only when the power value is not exactly `true`; ask for nothing when
      the light has no power characteristic. */
  function EnsureLightOn(accessory: Accessory): (w: Option<WriteRequest>)
    ensures Find(accessory, Lightbulb, PowerState).None? ==> w.None?
    ensures w.Some? <==> Find(accessory, Lightbulb, PowerState).Some? && !PowerIsOn(accessory, Lightbulb)
    ensures w.Some? ==> w.value == WriteRequest(Find(accessory, Lightbulb, PowerState).value, BoolValue(true))
  {
    match Find(accessory, Lightbulb, PowerState)
    case None => None
    case Some(power) =>
      if AsBool(power.value) != Some(true) then Some(WriteRequest(power, BoolValue(true))) else None
  }

  /** Turn a light off after a brightness write of zero or less: ask for
      `false` only when the power value is exactly `true`. */
  function EnsureLightOff(accessory: Accessory): (w: Option<WriteRequest>)
    ensures Find(accessory, Lightbulb, PowerState).None? ==> w.None?
    ensures w.Some? <==> PowerIsOn(accessory, Lightbulb)
    ensures w.Some? ==> w.value == WriteRequest(Find(accessory, Lightbulb, PowerState).value, BoolValue(false))
  {
    match Find(accessory, Lightbulb, PowerState)
    case None => None
    case Some(power) =>
      if AsBool(power.value) == Some(true) then Some(WriteRequest(power, BoolValue(false))) else None
  }

  /** What the store asks for after a brightness write of `value` succeeds:
      the power value `value > 0`, unless the light already reads so. */
  function BrightnessFollowUp(accessory: Accessory, value: int): (w: Option<WriteRequest>)
    ensures Find(accessory, Lightbulb, PowerState).None? ==> w.None?
    ensures w.Some? ==> w.value == WriteRequest(Find(accessory, Lightbulb, PowerState).value, BoolValue(value > 0))
    ensures Find(accessory, Lightbulb, PowerState).Some? ==>
              (w.None? <==> PowerIsOn(accessory, Lightbulb) == (value > 0))
  {
    if value > 0 then EnsureLightOn(accessory) else EnsureLightOff(accessory)
  }

  /** The accessory as it reads once the requested power write, if any,
      has succeeded. */
  function AfterPowerWrite(accessory: Accessory, st: ServiceType, w: Option<WriteRequest>): (r: Accessory)
    ensures w.None? ==> r == accessory
    ensures w.Some? ==> r == AfterWrite(accessory, st, PowerState, w.value.value)
  {
    match w
    case None => accessory
    case Some(req) => AfterWrite(accessory, st, PowerState, req.value)
  }

  /** `ensureLightOn` leaves the light on, and is then idempotent. */
  lemma EnsureLightOnSettles(accessory: Accessory)
    requires Find(accessory, Lightbulb, PowerState).Some?
    ensures var after := AfterPowerWrite(accessory, Lightbulb, EnsureLightOn(accessory));
            PowerIsOn(after, Lightbulb) && EnsureLightOn(after).None?
  {
  }

  /** `ensureLightOff` leaves the light not on, and is then idempotent. */
  lemma EnsureLightOffSettles(accessory: Accessory)
    requires Find(accessory, Lightbulb, PowerState).Some?
    ensures var after := AfterPowerWrite(accessory, Lightbulb, EnsureLightOff(accessory));
            !PowerIsOn(after, Lightbulb) && EnsureLightOff(after).None?
  {
  }

  /** After the follow-up write the light reads on exactly when the brightness
      written was above zero, and a second follow-up asks for nothing. */
  lemma BrightnessFollowUpSettles(accessory: Accessory, value: int)
    requires Find(accessory, Lightbulb, PowerState).Some?
    ensures var after := AfterPowerWrite(accessory, Lightbulb, BrightnessFollowUp(accessory, value));
            PowerIsOn(after, Lightbulb) == (value > 0) && BrightnessFollowUp(after, value).None?
  {
    if value > 0 {
      EnsureLightOnSettles(accessory);
    } else {
      EnsureLightOffSettles(accessory);
    }
  }

  /** A toggle flips the power state as the app reads it (missing or
      non-Boolean reading as off), for lights, plugs and fans alike. */
  lemma ToggleFlipsPower(accessory: Accessory, st: ServiceType)
    requires Find(accessory, st, PowerState).Some?
    ensures var power := Find(accessory, st, PowerState).value;
            var after := AfterWrite(accessory, st, PowerState, ToggleWrite(power).value);
            AsBool(Find(after, st, PowerState).value.value).GetOr(false) == !AsBool(power.value).GetOr(false)
  {
  }

  /** Two toggles of a Boolean power value give it back. */
  lemma ToggleTwiceRestores(accessory: Accessory, st: ServiceType, b: bool)
    requires Find(accessory, st, PowerState).Some?
    requires Find(accessory, st, PowerState).value.value == Some(BoolValue(b))
    ensures var once := AfterWrite(accessory, st, PowerState, ToggleWrite(Find(accessory, st, PowerState).value).value);
            var twice := AfterWrite(once, st, PowerState, ToggleWrite(Find(once, st, PowerState).value).value);
            Find(twice, st, PowerState).value.value == Some(BoolValue(b))
  {
  }

  /** A light toggle asks for `true` exactly when `ensureLightOn` would
      write. */
  lemma ToggleOnWhenEnsureOnWrites(accessory: Accessory)
    requires Find(accessory, Lightbulb, PowerState).Some?
    ensures ToggleWrite(Find(accessory, Lightbulb, PowerState).value).value == BoolValue(true)
            <==> EnsureLightOn(accessory).Some?
  {
  }

  /** Colour is supported when the FIRST lightbulb service has both a hue and
      a saturation characteristic. */
  function SupportsColor(accessory: Accessory): (r: bool)
    ensures r <==> exists i :: IsFirstServiceOfType(accessory.services, Lightbulb, i) &&
                              ProvidesCharacteristic(accessory.services[i], Hue) &&
                              ProvidesCharacteristic(accessory.services[i], Saturation)
    ensures r ==> IsLightbulb(accessory)
  {
    FindImpliesKind(accessory, Hue);
    FirstServiceOfTypeUnique(accessory.services, Lightbulb);
    Find(accessory, Lightbulb, Hue).Some? && Find(accessory, Lightbulb, Saturation).Some?
  }

  // ---------------------------------------------------------------------
  // The store

  class HomeStore {
    var homes: seq<Home>
    var selectedHome: Option<Home>
    var accessories: seq<Accessory>
    var rooms: seq<Room>
    var actions: seq<ActionSet>
    var roomAccessories: map<Room, seq<Accessory>>
    var showingAlert: bool
    var alertMessage: string

    /** The store shows `h`: it is selected and every derived list is
        computed from it. */
    ghost predicate Shows(h: Home)
      reads this
    {
      selectedHome == Some(h) &&
      accessories == h.accessories &&
      rooms == h.rooms &&
      actions == NonEmptyActionSets(h.actionSets) &&
      IsRoomTable(roomAccessories, rooms, accessories)
    }

    /** The derived lists always belong to the selected home, and are empty
        while no home is selected. */
    ghost predicate Valid()
      reads this
    {
      match selectedHome
      case Some(h) => Shows(h)
      case None => accessories == [] && rooms == [] && actions == [] && roomAccessories == map[]
    }

    /** Selection and derived lists are as they were. */
    twostate predicate SelectionUnchanged()
      reads this
    {
      selectedHome == old(selectedHome) && accessories == old(accessories) && rooms == old(rooms) &&
      actions == old(actions) && roomAccessories == old(roomAccessories)
    }

    twostate predicate AlertUnchanged()
      reads this
    {
      showingAlert == old(showingAlert) && alertMessage == old(alertMessage)
    }

    predicate Alerted(message: string)
      reads this
    {
      showingAlert && alertMessage == message
    }

    /** Creating the store reads the home list once; `managerHomes` is the
        home manager's list (`None` when there is no home manager). */
    constructor (managerHomes: Option<seq<Home>>)
      ensures Valid()
      ensures homes == managerHomes.GetOr([])
      ensures homes != [] ==> Shows(homes[0])
      ensures homes == [] ==> selectedHome == None
      ensures !showingAlert && alertMessage == ""
    {
      homes := [];
      selectedHome := None;
      accessories := [];
      rooms := [];
      actions := [];
      roomAccessories := map[];
      showingAlert := false;
      alertMessage := "";
      new;
      UpdateHomes(managerHomes);
    }

    /** Re-read the home list; select its first home only when nothing is
        selected yet. A selected home stays selected even if it is no longer
        in the list. */
    method UpdateHomes(managerHomes: Option<seq<Home>>)
      requires Valid()
      modifies this
      ensures Valid()
      ensures homes == managerHomes.GetOr([])
      ensures old(selectedHome).Some? ==> SelectionUnchanged()
      ensures old(selectedHome).None? && homes != [] ==> Shows(homes[0])
      ensures old(selectedHome).None? && homes == [] ==> SelectionUnchanged() && selectedHome == None
      ensures AlertUnchanged()
    {
      homes := managerHomes.GetOr([]);
      if selectedHome.None? && homes != [] {
        SelectHome(homes[0]);
      }
    }

    /** Select `home` and recompute everything derived from it. */
    method SelectHome(home: Home)
      modifies this`selectedHome, this`accessories, this`rooms, this`actions, this`roomAccessories
      ensures Shows(home) && Valid()
    {
      selectedHome := Some(home);
      accessories := home.accessories;
      rooms := home.rooms;
      FetchActions(home);
      GroupAccessoriesByRoom();
    }

    /** Select the first home with identifier `homeId`; failing that, the
        first home; with no homes at all, change nothing. */
    method SelectHomeById(homeId: Option<Uuid>)
      requires Valid()
      modifies this`selectedHome, this`accessories, this`rooms, this`actions, this`roomAccessories
      ensures Valid()
      ensures forall i :: homeId.Some? && IsFirstHomeWithId(homes, homeId.value, i) ==> Shows(homes[i])
      ensures (homeId.None? || !HasHomeWithId(homes, homeId.value)) && homes != [] ==> Shows(homes[0])
      ensures homes == [] ==> SelectionUnchanged()
    {
      var found := None;
      if homeId.Some? {
        found := First(homes, (h: Home) => h.uniqueIdentifier == homeId.value);
      }
      if found.Some? {
        SelectHome(found.value);
        forall i | homeId.Some? && IsFirstHomeWithId(homes, homeId.value, i) ensures found.value == homes[i] {
          var j :| IsFirstMatch(homes, (h: Home) => h.uniqueIdentifier == homeId.value, j) && homes[j] == found.value;
          assert IsFirstMatch(homes, (h: Home) => h.uniqueIdentifier == homeId.value, i);
          FirstMatchUnique(homes, (h: Home) => h.uniqueIdentifier == homeId.value, i, j);
        }
      } else if homes != [] {
        SelectHome(homes[0]);
      }
    }

    /** Keep the home's scenes that have at least one action. */
    method FetchActions(home: Home)
      modifies this`actions
      ensures actions == NonEmptyActionSets(home.actionSets)
    {
      actions := Filter(home.actionSets, (s: ActionSet) => |s.actions| > 0);
    }

    /** Rebuild the room table from scratch, one room at a time. */
    method GroupAccessoriesByRoom()
      modifies this`roomAccessories
      ensures IsRoomTable(roomAccessories, rooms, accessories)
    {
      roomAccessories := map[];
      for n := 0 to |rooms|
        invariant roomAccessories.Keys == set k | 0 <= k < n :: rooms[k]
        invariant forall r :: r in roomAccessories ==> roomAccessories[r] == AccessoriesInRoom(accessories, r)
      {
        var room := rooms[n];
        var accessoriesInRoom := Filter(accessories, (a: Accessory) => InRoom(a, room));
        roomAccessories := roomAccessories[room := accessoriesInRoom];
      }
      assert (set k | 0 <= k < |rooms| :: rooms[k]) == (set r | r in rooms) by {
        forall r | r in rooms ensures r in (set k | 0 <= k < |rooms| :: rooms[k]) {
          var k :| 0 <= k < |rooms| && rooms[k] == r;
        }
      }
    }

    /** Tell the user something went wrong. */
    method Alert(message: string)
      modifies this`alertMessage, this`showingAlert
      ensures Alerted(message)
    {
      alertMessage := message;
      showingAlert := true;
    }

    /** The guard-then-write pattern of the control methods: with no such
        characteristic, alert and ask for no write; otherwise ask to write
        `v` to it and leave the alert alone. */
    method RequestWrite(accessory: Accessory, st: ServiceType, ct: CharacteristicType, v: Value, message: string)
      returns (write: Option<WriteRequest>)
      modifies this`alertMessage, this`showingAlert
      ensures Find(accessory, st, ct).None? ==> write.None? && Alerted(message)
      ensures Find(accessory, st, ct).Some? ==> write == Some(WriteRequest(Find(accessory, st, ct).value, v)) && AlertUnchanged()
    {
      var found := Find(accessory, st, ct);
      if found.None? {
        Alert(message);
        return None;
      }
      write := Some(WriteRequest(found.value, v));
    }

    /** The shared body of the three toggles. */
    method TogglePower(accessory: Accessory, st: ServiceType) returns (write: Option<WriteRequest>)
      modifies this`alertMessage, this`showingAlert
      ensures Find(accessory, st, PowerState).None? ==> write.None? && Alerted(PowerToggleUnsupported)
      ensures Find(accessory, st, PowerState).Some? ==>
                write == Some(ToggleWrite(Find(accessory, st, PowerState).value)) && AlertUnchanged()
    {
      var power := Find(accessory, st, PowerState);
      if power.None? {
        Alert(PowerToggleUnsupported);
        return None;
      }
      write := Some(ToggleWrite(power.value));
    }

    method ToggleLight(accessory: Accessory) returns (write: Option<WriteRequest>)
      modifies this`alertMessage, this`showingAlert
      ensures Find(accessory, Lightbulb, PowerState).None? ==> write.None? && Alerted(PowerToggleUnsupported)
      ensures Find(accessory, Lightbulb, PowerState).Some? ==>
                write == Some(ToggleWrite(Find(accessory, Lightbulb, PowerState).value)) && AlertUnchanged()
    {
      write := TogglePower(accessory, Lightbulb);
    }

    method TogglePlug(accessory: Accessory) returns (write: Option<WriteRequest>)
      modifies this`alertMessage, this`showingAlert
      ensures Find(accessory, Outlet, PowerState).None? ==> write.None? && Alerted(PowerToggleUnsupported)
      ensures Find(accessory, Outlet, PowerState).Some? ==>
                write == Some(ToggleWrite(Find(accessory, Outlet, PowerState).value)) && AlertUnchanged()
    {
      write := TogglePower(accessory, Outlet);
    }

    method ToggleFan(accessory: Accessory) returns (write: Option<WriteRequest>)
      modifies this`alertMessage, this`showingAlert
      ensures Find(accessory, Fan, PowerState).None? ==> write.None? && Alerted(PowerToggleUnsupported)
      ensures Find(accessory, Fan, PowerState).Some? ==>
                write == Some(ToggleWrite(Find(accessory, Fan, PowerState).value)) && AlertUnchanged()
    {
      write := TogglePower(accessory, Fan);
    }

    /** Ask to write the brightness `value`; the power follow-up once that
        write succeeds is `BrightnessFollowUp(accessory, value)`. */
    method AdjustBrightness(accessory: Accessory, value: int) returns (write: Option<WriteRequest>)
      modifies this`alertMessage, this`showingAlert
      ensures Find(accessory, Lightbulb, Brightness).None? ==> write.None? && Alerted(BrightnessUnsupported)
      ensures Find(accessory, Lightbulb, Brightness).Some? ==>
                write == Some(WriteRequest(Find(accessory, Lightbulb, Brightness).value, IntValue(value))) &&
                AlertUnchanged()
    {
      write := RequestWrite(accessory, Lightbulb, Brightness, IntValue(value), BrightnessUnsupported);
    }

    /** Pick the hue and saturation characteristics to write, or alert when
        either is missing. */
    method ChangeColor(accessory: Accessory) returns (targets: Option<ColorTargets>)
      modifies this`alertMessage, this`showingAlert
      ensures targets.Some? <==> SupportsColor(accessory)
      ensures targets.None? ==> Alerted(ColorUnsupported)
      ensures targets.Some? ==>
                targets.value == ColorTargets(Find(accessory, Lightbulb, Hue).value, Find(accessory, Lightbulb, Saturation).value) &&
                AlertUnchanged()
    {
      var hue := Find(accessory, Lightbulb, Hue);
      var saturation := Find(accessory, Lightbulb, Saturation);
      if hue.None? || saturation.None? {
        Alert(ColorUnsupported);
        return None;
      }
      targets := Some(ColorTargets(hue.value, saturation.value));
    }

    method SetThermostatTemperature(accessory: Accessory, temperature: real) returns (write: Option<WriteRequest>)
      modifies this`alertMessage, this`showingAlert
      ensures Find(accessory, Thermostat, TargetTemperature).None? ==> write.None? && Alerted(TemperatureUnsupported)
      ensures Find(accessory, Thermostat, TargetTemperature).Some? ==>
                write == Some(WriteRequest(Find(accessory, Thermostat, TargetTemperature).value, RealValue(temperature))) &&
                AlertUnchanged()
    {
      write := RequestWrite(accessory, Thermostat, TargetTemperature, RealValue(temperature), TemperatureUnsupported);
    }

    method SetWindowCoveringPosition(accessory: Accessory, position: int) returns (write: Option<WriteRequest>)
      modifies this`alertMessage, this`showingAlert
      ensures Find(accessory, WindowCovering, PositionState).None? ==> write.None? && Alerted(PositionUnsupported)
      ensures Find(accessory, WindowCovering, PositionState).Some? ==>
                write == Some(WriteRequest(Find(accessory, WindowCovering, PositionState).value, IntValue(position))) &&
                AlertUnchanged()
    {
      write := RequestWrite(accessory, WindowCovering, PositionState, IntValue(position), PositionUnsupported);
    }

    method SetFanSpeed(accessory: Accessory, speed: int) returns (write: Option<WriteRequest>)
      modifies this`alertMessage, this`showingAlert
      ensures Find(accessory, Fan, RotationSpeed).None? ==> write.None? && Alerted(FanSpeedUnsupported)
      ensures Find(accessory, Fan, RotationSpeed).Some? ==>
                write == Some(WriteRequest(Find(accessory, Fan, RotationSpeed).value, IntValue(speed))) &&
                AlertUnchanged()
    {
      write := RequestWrite(accessory, Fan, RotationSpeed, IntValue(speed), FanSpeedUnsupported);
    }
  }

  /** `i` is the first home with identifier `id`. */
  ghost predicate IsFirstHomeWithId(homes: seq<Home>, id: Uuid, i: int) {
    0 <= i < |homes| && homes[i].uniqueIdentifier == id &&
    forall j :: 0 <= j < i ==> homes[j].uniqueIdentifier != id
  }

  ghost predicate HasHomeWithId(homes: seq<Home>, id: Uuid) {
    exists i :: 0 <= i < |homes| && homes[i].uniqueIdentifier == id
  }
}
