/** The lookup helpers the app adds to an accessory: a two-level first-match
    search for a characteristic, and one service-kind test per kind of
    accessory the app knows. All of them are functions of the accessory's
    value, so none of them can change the accessory. */
module AccessoryExtensions {
  import opened SwiftStd
  import opened HomeKit

  /** `i` is the first service of type `st`. */
  ghost predicate IsFirstServiceOfType(services: seq<Service>, st: ServiceType, i: int) {
    0 <= i < |services| && services[i].serviceType == st &&
    forall j :: 0 <= j < i ==> services[j].serviceType != st
  }

  /** `k` is the first characteristic of type `ct`. */
  ghost predicate IsFirstCharacteristicOfType(cs: seq<Characteristic>, ct: CharacteristicType, k: int) {
    0 <= k < |cs| && cs[k].characteristicType == ct &&
    forall j :: 0 <= j < k ==> cs[j].characteristicType != ct
  }

  ghost predicate ProvidesCharacteristic(service: Service, ct: CharacteristicType) {
    exists k :: 0 <= k < |service.characteristics| && service.characteristics[k].characteristicType == ct
  }

  ghost predicate HasServiceOfType(accessory: Accessory, st: ServiceType) {
    exists i :: 0 <= i < |accessory.services| && accessory.services[i].serviceType == st
  }

  /** Some service of type `st`, not necessarily the first, provides `ct`. */
  ghost predicate SomeServiceProvides(accessory: Accessory, st: ServiceType, ct: CharacteristicType) {
    exists i :: 0 <= i < |accessory.services| && accessory.services[i].serviceType == st &&
      ProvidesCharacteristic(accessory.services[i], ct)
  }

  /** There is at most one first service of a type. */
  lemma FirstServiceOfTypeUnique(services: seq<Service>, st: ServiceType)
    ensures forall i, j :: IsFirstServiceOfType(services, st, i) && IsFirstServiceOfType(services, st, j) ==> i == j
  {
  }

  /** Characteristic `k` of service `i` is the one the lookup finds. */
  ghost predicate FoundAt(accessory: Accessory, st: ServiceType, ct: CharacteristicType, i: int, k: int) {
    IsFirstServiceOfType(accessory.services, st, i) &&
    IsFirstCharacteristicOfType(accessory.services[i].characteristics, ct, k)
  }

  /** `find(serviceType:characteristicType:)`: the first characteristic of
      type `ct` in the FIRST service of type `st`; later services of that
      type are never consulted. */
  function Find(accessory: Accessory, st: ServiceType, ct: CharacteristicType): (r: Option<Characteristic>)
    ensures r.Some? ==> r.value.characteristicType == ct
    ensures r.Some? <==> exists i :: IsFirstServiceOfType(accessory.services, st, i) &&
                                     ProvidesCharacteristic(accessory.services[i], ct)
    ensures r.Some? ==> exists i, k :: IsFirstServiceOfType(accessory.services, st, i) &&
                                       IsFirstCharacteristicOfType(accessory.services[i].characteristics, ct, k) &&
                                       r.value == accessory.services[i].characteristics[k]
  {
    var ofType := (s: Service) => s.serviceType == st;
    var ofCharType := (c: Characteristic) => c.characteristicType == ct;
    match First(accessory.services, ofType)
    case None => None
    case Some(service) => First(service.characteristics, ofCharType)
  }

  function IsLightbulb(accessory: Accessory): (r: bool)
    ensures r <==> HasServiceOfType(accessory, Lightbulb)
  {
    Contains(accessory.services, (s: Service) => s.serviceType == Lightbulb)
  }

  function IsOutlet(accessory: Accessory): (r: bool)
    ensures r <==> HasServiceOfType(accessory, Outlet)
  {
    Contains(accessory.services, (s: Service) => s.serviceType == Outlet)
  }

  function IsThermostat(accessory: Accessory): (r: bool)
    ensures r <==> HasServiceOfType(accessory, Thermostat)
  {
    Contains(accessory.services, (s: Service) => s.serviceType == Thermostat)
  }

  function IsLock(accessory: Accessory): (r: bool)
    ensures r <==> HasServiceOfType(accessory, LockMechanism)
  {
    Contains(accessory.services, (s: Service) => s.serviceType == LockMechanism)
  }

  function IsMotionSensor(accessory: Accessory): (r: bool)
    ensures r <==> HasServiceOfType(accessory, MotionSensor)
  {
    Contains(accessory.services, (s: Service) => s.serviceType == MotionSensor)
  }

  function IsCamera(accessory: Accessory): (r: bool)
    ensures r <==> HasServiceOfType(accessory, CameraControl)
  {
    Contains(accessory.services, (s: Service) => s.serviceType == CameraControl)
  }

  function IsFan(accessory: Accessory): (r: bool)
    ensures r <==> HasServiceOfType(accessory, Fan)
  {
    Contains(accessory.services, (s: Service) => s.serviceType == Fan)
  }

  function IsWindowCovering(accessory: Accessory): (r: bool)
    ensures r <==> HasServiceOfType(accessory, WindowCovering)
  {
    Contains(accessory.services, (s: Service) => s.serviceType == WindowCovering)
  }

  /** A successful lookup needs a service of the asked type; so with no such
      service the lookup is `nil`. */
  lemma FindImpliesServiceOfType(accessory: Accessory, st: ServiceType, ct: CharacteristicType)
    ensures Find(accessory, st, ct).Some? ==> HasServiceOfType(accessory, st)
    ensures !HasServiceOfType(accessory, st) ==> Find(accessory, st, ct) == None
  {
  }

  /** A lookup that succeeds for one of the kinds the app tests makes that
      kind's test true (a lightbulb power lookup implies `isLightbulb`). */
  lemma FindImpliesKind(accessory: Accessory, ct: CharacteristicType)
    ensures Find(accessory, Lightbulb, ct).Some? ==> IsLightbulb(accessory)
    ensures Find(accessory, Outlet, ct).Some? ==> IsOutlet(accessory)
    ensures Find(accessory, Thermostat, ct).Some? ==> IsThermostat(accessory)
    ensures Find(accessory, LockMechanism, ct).Some? ==> IsLock(accessory)
    ensures Find(accessory, MotionSensor, ct).Some? ==> IsMotionSensor(accessory)
    ensures Find(accessory, CameraControl, ct).Some? ==> IsCamera(accessory)
    ensures Find(accessory, Fan, ct).Some? ==> IsFan(accessory)
    ensures Find(accessory, WindowCovering, ct).Some? ==> IsWindowCovering(accessory)
  {
    FindImpliesServiceOfType(accessory, Lightbulb, ct);
    FindImpliesServiceOfType(accessory, Outlet, ct);
    FindImpliesServiceOfType(accessory, Thermostat, ct);
    FindImpliesServiceOfType(accessory, LockMechanism, ct);
    FindImpliesServiceOfType(accessory, MotionSensor, ct);
    FindImpliesServiceOfType(accessory, CameraControl, ct);
    FindImpliesServiceOfType(accessory, Fan, ct);
    FindImpliesServiceOfType(accessory, WindowCovering, ct);
  }

  /** Only the services up to and including the first one of type `st` decide
      the lookup: whatever follows it may change without effect. */
  lemma {:induction false} FindIgnoresLaterServices(
    accessory: Accessory, other: Accessory, st: ServiceType, ct: CharacteristicType, i: nat)
    requires IsFirstServiceOfType(accessory.services, st, i)
    requires i < |other.services| && other.services[..i + 1] == accessory.services[..i + 1]
    ensures Find(other, st, ct) == Find(accessory, st, ct)
  {
    var ofType := (s: Service) => s.serviceType == st;
    forall j | 0 <= j <= i ensures other.services[j] == accessory.services[j] {
      assert other.services[j] == other.services[..i + 1][j];
    }
    FirstAt(accessory.services, ofType, i);
    FirstAt(other.services, ofType, i);
  }

  /** The first-service rule means a lookup can fail although some later
      service of the asked type has the characteristic. */
  lemma LaterServiceIsShadowed()
    ensures exists a: Accessory :: SomeServiceProvides(a, Lightbulb, Hue) && Find(a, Lightbulb, Hue) == None
  {
    var plain := Service(1, Lightbulb, [Characteristic(2, PowerState, None)]);
    var colour := Service(3, Lightbulb, [Characteristic(4, PowerState, None), Characteristic(5, Hue, None)]);
    var a := Accessory(0, "lamp", None, [plain, colour]);
    assert ProvidesCharacteristic(a.services[1], Hue) by {
      assert a.services[1].characteristics[1].characteristicType == Hue;
    }
    assert IsFirstServiceOfType(a.services, Lightbulb, 0);
    assert !ProvidesCharacteristic(a.services[0], Hue);
    assert Find(a, Lightbulb, Hue) == None;
  }

  /** The accessory as it reads after a successful write of `v` to the
      characteristic `Find(accessory, st, ct)` returns. The framework, not
      the app, performs writes; this definition is the reference the write
      decisions of the store are proved against. */
  function AfterWrite(accessory: Accessory, st: ServiceType, ct: CharacteristicType, v: Value): (a: Accessory)
    ensures Find(accessory, st, ct).None? ==> a == accessory
    ensures Find(accessory, st, ct).Some? ==>
              Find(a, st, ct) == Some(Find(accessory, st, ct).value.(value := Some(v)))
    ensures a.uniqueIdentifier == accessory.uniqueIdentifier && a.name == accessory.name
    ensures a.room == accessory.room && |a.services| == |accessory.services|
    ensures forall j :: 0 <= j < |a.services| ==>
              a.services[j].uniqueIdentifier == accessory.services[j].uniqueIdentifier &&
              a.services[j].serviceType == accessory.services[j].serviceType &&
              |a.services[j].characteristics| == |accessory.services[j].characteristics|
    ensures forall j, k :: 0 <= j < |a.services| && 0 <= k < |a.services[j].characteristics| ==>
              a.services[j].characteristics[k].uniqueIdentifier == accessory.services[j].characteristics[k].uniqueIdentifier &&
              a.services[j].characteristics[k].characteristicType == accessory.services[j].characteristics[k].characteristicType
  {
    var ofType := (s: Service) => s.serviceType == st;
    var ofCharType := (c: Characteristic) => c.characteristicType == ct;
    match FirstIndex(accessory.services, ofType)
    case None => accessory
    case Some(i) =>
      var service := accessory.services[i];
      match FirstIndex(service.characteristics, ofCharType)
      case None => accessory
      case Some(k) =>
        var a := WithValueAt(accessory, i, k, v);
        FirstAt(accessory.services, ofType, i);
        FirstAt(service.characteristics, ofCharType, k);
        FirstAt(a.services, ofType, i);
        FirstAt(a.services[i].characteristics, ofCharType, k);
        a
  }

  /** The accessory with characteristic `k` of service `i` holding `v`, and
      everything else as it was. */
  function WithValueAt(accessory: Accessory, i: nat, k: nat, v: Value): (a: Accessory)
    requires i < |accessory.services| && k < |accessory.services[i].characteristics|
    ensures a.uniqueIdentifier == accessory.uniqueIdentifier && a.name == accessory.name
    ensures a.room == accessory.room && |a.services| == |accessory.services|
    ensures forall j :: 0 <= j < |a.services| && j != i ==> a.services[j] == accessory.services[j]
    ensures a.services[i].uniqueIdentifier == accessory.services[i].uniqueIdentifier
    ensures a.services[i].serviceType == accessory.services[i].serviceType
    ensures |a.services[i].characteristics| == |accessory.services[i].characteristics|
    ensures forall m :: 0 <= m < |a.services[i].characteristics| && m != k ==>
              a.services[i].characteristics[m] == accessory.services[i].characteristics[m]
    ensures a.services[i].characteristics[k] == accessory.services[i].characteristics[k].(value := Some(v))
  {
    var service := accessory.services[i];
    var cs := service.characteristics[k := service.characteristics[k].(value := Some(v))];
    accessory.(services := accessory.services[i := service.(characteristics := cs)])
  }

  /** A write changes the found characteristic's value and nothing else: it
      is `WithValueAt` at the position the lookup finds. */
  lemma AfterWriteAt(accessory: Accessory, st: ServiceType, ct: CharacteristicType, v: Value, i: int, k: int)
    requires FoundAt(accessory, st, ct, i, k)
    ensures AfterWrite(accessory, st, ct, v) == WithValueAt(accessory, i, k, v)
  {
    FirstAt(accessory.services, (s: Service) => s.serviceType == st, i);
    FirstAt(accessory.services[i].characteristics, (c: Characteristic) => c.characteristicType == ct, k);
  }

  /** A write at a position the lookup for `st2` and `ct2` does not find
      leaves that lookup as it was. */
  lemma WithValueAtKeepsLookup(
    accessory: Accessory, i: nat, k: nat, v: Value, st2: ServiceType, ct2: CharacteristicType)
    requires i < |accessory.services| && k < |accessory.services[i].characteristics|
    requires !FoundAt(accessory, st2, ct2, i, k)
    ensures Find(WithValueAt(accessory, i, k, v), st2, ct2) == Find(accessory, st2, ct2)
  {
    var a := WithValueAt(accessory, i, k, v);
    var ofType2 := (s: Service) => s.serviceType == st2;
    match FirstIndex(accessory.services, ofType2)
    case None =>
      assert FirstIndex(a.services, ofType2).None?;
    case Some(i2) =>
      if i2 != i {
        FirstAt(accessory.services, ofType2, i2);
        FirstAt(a.services, ofType2, i2);
        assert a.services[i2] == accessory.services[i2];
      } else {
        WithValueAtKeepsLookupInService(accessory, i, k, v, st2, ct2);
      }
  }

  /** The same when the written service is the one the lookup searches, but
      the written characteristic is not the one it finds there. */
  lemma WithValueAtKeepsLookupInService(
    accessory: Accessory, i: nat, k: nat, v: Value, st2: ServiceType, ct2: CharacteristicType)
    requires i < |accessory.services| && k < |accessory.services[i].characteristics|
    requires IsFirstServiceOfType(accessory.services, st2, i)
    requires !IsFirstCharacteristicOfType(accessory.services[i].characteristics, ct2, k)
    ensures Find(WithValueAt(accessory, i, k, v), st2, ct2) == Find(accessory, st2, ct2)
  {
    var a := WithValueAt(accessory, i, k, v);
    var ofCharType2 := (c: Characteristic) => c.characteristicType == ct2;
    FirstAt(accessory.services, (s: Service) => s.serviceType == st2, i);
    FirstAt(a.services, (s: Service) => s.serviceType == st2, i);
    var before := accessory.services[i].characteristics;
    var after := a.services[i].characteristics;
    match FirstIndex(before, ofCharType2)
    case None =>
      assert FirstIndex(after, ofCharType2).None?;
    case Some(k2) =>
      FirstAt(before, ofCharType2, k2);
      FirstAt(after, ofCharType2, k2);
      assert after[k2] == before[k2];
  }

  /** A write changes no other lookup: every other pair of service type and
      characteristic type finds what it found before. */
  lemma AfterWriteKeepsOtherLookups(
    accessory: Accessory, st: ServiceType, ct: CharacteristicType, v: Value,
    st2: ServiceType, ct2: CharacteristicType)
    requires st2 != st || ct2 != ct
    ensures Find(AfterWrite(accessory, st, ct, v), st2, ct2) == Find(accessory, st2, ct2)
  {
    var ofType := (s: Service) => s.serviceType == st;
    var ofCharType := (c: Characteristic) => c.characteristicType == ct;
    match FirstIndex(accessory.services, ofType)
    case None =>
    case Some(i) =>
      match FirstIndex(accessory.services[i].characteristics, ofCharType)
      case None =>
      case Some(k) =>
        AfterWriteAt(accessory, st, ct, v, i, k);
        WithValueAtKeepsLookup(accessory, i, k, v, st2, ct2);
  }
}
