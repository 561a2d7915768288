/** The home-automation framework's entities, as the store sees them: plain
    values with identifiers and lists. The framework's type identifiers
    (service types, characteristic types) are opaque strings there; here
    each one the app names is a tag of its own, and every other identifier
    is an `Other…` tag, so only their equality matters, as in the app. */
module HomeKit {
  import opened SwiftStd

  type Uuid = nat

  /** The service types the app asks about. */
  datatype ServiceType =
    | Lightbulb
    | Outlet
    | Thermostat
    | LockMechanism
    | MotionSensor
    | CameraControl
    | Fan
    | WindowCovering
    | OtherService(identifier: string)

  /** The characteristic types the app asks about. */
  datatype CharacteristicType =
    | PowerState
    | Brightness
    | Hue
    | Saturation
    | TargetTemperature
    | RotationSpeed
    | PositionState
    | OtherCharacteristic(identifier: string)

  /** What a characteristic's untyped `value` may hold. */
  datatype Value =
    | BoolValue(b: bool)
    | IntValue(i: int)
    | RealValue(x: real)
    | OtherValue

  /** A characteristic with its last-read value (`nil` when none was read). */
  datatype Characteristic = Characteristic(
    uniqueIdentifier: Uuid,
    characteristicType: CharacteristicType,
    value: Option<Value>)

  datatype Service = Service(uniqueIdentifier: Uuid, serviceType: ServiceType, characteristics: seq<Characteristic>)

  datatype Room = Room(uniqueIdentifier: Uuid, name: string)

  datatype Accessory = Accessory(
    uniqueIdentifier: Uuid,
    name: string,
    room: Option<Room>,
    services: seq<Service>)

  /** One write of a scene. */
  datatype Action = Action(characteristic: Characteristic, targetValue: Value)

  /** A scene: a named bundle of writes. */
  datatype ActionSet = ActionSet(uniqueIdentifier: Uuid, name: string, actions: seq<Action>)

  datatype Home = Home(
    uniqueIdentifier: Uuid,
    name: string,
    accessories: seq<Accessory>,
    rooms: seq<Room>,
    actionSets: seq<ActionSet>)

  /** Swift's `value as? Bool`: only a Boolean value casts. */
  function AsBool(v: Option<Value>): (r: Option<bool>)
    ensures r.Some? <==> v.Some? && v.value.BoolValue?
    ensures r.Some? ==> r.value == v.value.b
  {
    match v
    case Some(BoolValue(b)) => Some(b)
    case _ => None
  }
}
