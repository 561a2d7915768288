# Abode home store, modelled in Dafny

Abode is a SwiftUI front end for HomeKit homes. This project models the app's
own logic around HomeKit: the `HomeStore` object and the `HMAccessory` lookup
helpers.

- **`HomeStore`** picks the home to show. It falls back to the first home when
  nothing is selected or the requested identifier is unknown. From the selected
  home it derives the accessory list, the room list, the scenes that have at
  least one action, and a table from each room to its accessories. For every
  control it looks up the characteristic it needs. If the lookup fails, it
  raises an alert. Otherwise it asks HomeKit to write a value.
- **The accessory helpers** are `find(serviceType:characteristicType:)`, a
  two-level first-match search, and one `isX` test per kind of service.

HomeKit's objects (home, room, accessory, service, characteristic, scene) are
plain datatypes here (`homekit.dfy`). Services and characteristics carry a
`uniqueIdentifier`, so a write request's target names one characteristic even
when two have equal types and values. The service and characteristic type
identifiers the app uses are enum tags. The Swift library operations the code
uses are written out with their contracts in `swift_std.dfy`: `first(where:)`,
`contains(where:)`, `filter` and `??`.

The store is a class (`home_store.dfy`). It has the store's published fields,
and its methods reassign them as the Swift methods do. `Valid()` is the store
invariant: the derived lists always belong to the selected home, and they are
empty while no home is selected. Each control method returns the write it asks
for, or `None` for no write. The power follow-up after a brightness write
(`ensureLightOn`/`ensureLightOff`) and the colour-support test are pure
functions.

`AfterWrite` is a reference definition: the accessory as it would read after
HomeKit completed a write. It is used only to prove what the write decisions
achieve. For example, `ensureLightOn` leaves the light on and then asks for
nothing more. A toggle flips the power as the app reads it.

`find` and the `isX` tests are functions of the accessory's value. They cannot
change the accessory or its services, so being read-only needs no separate
lemma.

## Model

| member | source | states |
|---|---|---|
| SwiftStd.FirstIndex | Abode/HMAccessory+Extensions.swift:14-15 | the index returned is where the predicate first holds; `None` exactly when it holds nowhere |
| SwiftStd.Option.GetOr | Abode/HomeStore.swift:52 | `??` gives the wrapped value when there is one and the default otherwise, as in `homeManager?.homes ?? []` and in `value as? Bool ?? false` at line 114 |
| SwiftStd.First | Abode/HMAccessory+Extensions.swift:14-15 | `first(where:)` returns the element at the first match, or `nil` exactly when nothing matches |
| SwiftStd.Contains | Abode/HMAccessory+Extensions.swift:19 | `contains(where:)` is true iff some element satisfies the predicate |
| SwiftStd.Filter | Abode/HomeStore.swift:76 | `filter` keeps exactly the satisfying elements, each as often as in the input, as a subsequence of it |
| SwiftStd.FilterIsUnique | Abode/HomeStore.swift:82 | any subsequence that keeps every satisfying occurrence and nothing else equals the filtered list, so `filter` is the one order-preserving selection |
| AccessoryExtensions.Find | Abode/HMAccessory+Extensions.swift:13-16 | a result has the requested type and is the first such characteristic of the first service of the requested type; the result is non-nil iff that first service has the characteristic |
| AccessoryExtensions.FindImpliesServiceOfType | Abode/HMAccessory+Extensions.swift:13-16 | a successful lookup implies a service of the requested type exists; with no such service the lookup is nil |
| AccessoryExtensions.FindImpliesKind | Abode/HMAccessory+Extensions.swift:13-48 | a successful lookup for a lightbulb, outlet, thermostat, lock, motion sensor, camera, fan or window covering service makes the matching `isX` test true |
| AccessoryExtensions.FindIgnoresLaterServices | Abode/HMAccessory+Extensions.swift:13-16 | changing anything after the first service of the requested type never changes the lookup |
| AccessoryExtensions.LaterServiceIsShadowed | Abode/HMAccessory+Extensions.swift:13-16 | there is an accessory where a later lightbulb service has a hue characteristic but the lookup is still nil |
| AccessoryExtensions.IsLightbulb | Abode/HMAccessory+Extensions.swift:18-20 | true iff some service is a lightbulb service |
| AccessoryExtensions.IsOutlet | Abode/HMAccessory+Extensions.swift:22-24 | true iff some service is an outlet service |
| AccessoryExtensions.IsThermostat | Abode/HMAccessory+Extensions.swift:26-28 | true iff some service is a thermostat service |
| AccessoryExtensions.IsLock | Abode/HMAccessory+Extensions.swift:30-32 | true iff some service is a lock-mechanism service |
| AccessoryExtensions.IsMotionSensor | Abode/HMAccessory+Extensions.swift:34-36 | true iff some service is a motion-sensor service |
| AccessoryExtensions.IsCamera | Abode/HMAccessory+Extensions.swift:38-40 | true iff some service is a camera-control service |
| AccessoryExtensions.IsFan | Abode/HMAccessory+Extensions.swift:42-44 | true iff some service is a fan service |
| AccessoryExtensions.IsWindowCovering | Abode/HMAccessory+Extensions.swift:46-48 | true iff some service is a window-covering service |
| AccessoryExtensions.AfterWrite | Abode/HomeStore.swift:115 | a failed lookup means no change; otherwise the same lookup afterwards returns the found characteristic with the written value; accessory identity, room, and every service's and characteristic's identifier, type and count stay the same |
| AccessoryExtensions.WithValueAt | Abode/HomeStore.swift:115 | characteristic `k` of service `i` takes the value; every other service and every other characteristic of service `i` is unchanged |
| AccessoryExtensions.AfterWriteAt | Abode/HomeStore.swift:115 | a completed write is `WithValueAt` at the position the lookup finds, so only that characteristic changes |
| AccessoryExtensions.WithValueAtKeepsLookup | Abode/HMAccessory+Extensions.swift:13-16 | a write at a position that a lookup does not find leaves that lookup's result unchanged |
| AccessoryExtensions.AfterWriteKeepsOtherLookups | Abode/HomeStore.swift:115 | after a write, the lookup for any other pair of service type and characteristic type returns what it returned before |
| HomeKit.AsBool | Abode/HomeStore.swift:114 | `value as? Bool` succeeds exactly on a Boolean value and gives that Boolean |
| Store.InRoom | Abode/HomeStore.swift:82 | an accessory with no room is in no room; an accessory is in its own room; otherwise it is in a room iff their identifiers are equal |
| Store.ToggleWrite | Abode/HomeStore.swift:114-115 | the toggle write targets the found power characteristic and asks for `true` exactly when the value does not cast to `true` |
| Store.PowerIsOn | Abode/HomeStore.swift:153 | the light reads on only when it has a power characteristic, and then iff its value casts to exactly `true` |
| Store.AccessoriesInRoom | Abode/HomeStore.swift:82 | a room's list holds exactly the accessories whose room has that room's identifier, in their original order and with their multiplicity |
| Store.NonEmptyActionSets | Abode/HomeStore.swift:76 | the scenes kept are exactly those with a non-empty action list, in their original order |
| Store.RoomTableMembership | Abode/HomeStore.swift:79-85 | in the room table an accessory is under a room iff its room has that identifier; an accessory with no room is under none; an accessory whose room is listed is under that room |
| Store.RoomTableUnique | Abode/HomeStore.swift:79-85 | the room table is determined by the rooms and the accessories alone |
| Store.PowerAfterToggle | Abode/HomeStore.swift:114 | a toggle asks for the negation of the current Boolean value; a missing or non-Boolean value counts as false, so the toggle asks for true |
| Store.ToggleFlipsPower | Abode/HomeStore.swift:114-115 | once the toggle write completes, the power as the app reads it is the negation of what it read before |
| Store.ToggleTwiceRestores | Abode/HomeStore.swift:114-115 | two completed toggles give back a Boolean power value |
| Store.ToggleOnWhenEnsureOnWrites | Abode/HomeStore.swift:148-160 | a light toggle asks for true exactly when `ensureLightOn` would write |
| Store.EnsureLightOn | Abode/HomeStore.swift:148-160 | asks for `true` only when the power value is not exactly true; no power characteristic means no write |
| Store.EnsureLightOff | Abode/HomeStore.swift:162-174 | asks for `false` only when the power value is exactly true; no power characteristic means no write |
| Store.EnsureLightOnSettles | Abode/HomeStore.swift:148-160 | after its write the light reads on, and a second call asks for nothing |
| Store.EnsureLightOffSettles | Abode/HomeStore.swift:162-174 | after its write the light reads not on, and a second call asks for nothing |
| Store.BrightnessFollowUp | Abode/HomeStore.swift:138-142 | after a brightness write of `value` it asks for power `value > 0`, and writes nothing exactly when the light already reads that way or has no power characteristic |
| Store.BrightnessFollowUpSettles | Abode/HomeStore.swift:132-146 | after the follow-up the light reads on iff `value > 0`, and a repeated follow-up asks for nothing |
| Store.SupportsColor | Abode/HomeStore.swift:205-208 | true iff the first lightbulb service has both a hue and a saturation characteristic; implies `isLightbulb` |
| Store.HomeStore.constructor | Abode/HomeStore.swift:36-47 | the store starts with the home manager's list (empty without a manager), shows its first home if any, and has no alert |
| Store.HomeStore.UpdateHomes | Abode/HomeStore.swift:51-56 | the home list is replaced; an existing selection is kept even if that home is gone; otherwise the first home is shown; with no homes nothing is selected |
| Store.HomeStore.SelectHome | Abode/HomeStore.swift:58-65 | the home is selected, its accessories and rooms are taken as they are, and the scenes and room table are recomputed from them |
| Store.HomeStore.SelectHomeById | Abode/HomeStore.swift:67-73 | shows the first home with the identifier; otherwise the first home; with no homes nothing changes |
| Store.HomeStore.FetchActions | Abode/HomeStore.swift:75-77 | `actions` becomes the home's scenes that have actions, in order |
| Store.HomeStore.GroupAccessoriesByRoom | Abode/HomeStore.swift:79-85 | the table is rebuilt from scratch: its keys are the rooms and each entry is that room's filtered accessory list |
| Store.HomeStore.Alert | Abode/HomeStore.swift:332-335 | sets the message and raises the alert |
| Store.HomeStore.RequestWrite | Abode/HomeStore.swift:126-130 | the guard shared by `adjustBrightness`, `setThermostatTemperature`, `setWindowCoveringPosition` and `setFanSpeed`: no characteristic means an alert and no write; otherwise a write of the given value to it and no change to the alert |
| Store.HomeStore.TogglePower | Abode/HomeStore.swift:108-115 | the shared toggle: no power characteristic means the power-toggling alert and no write; otherwise the toggled value is written |
| Store.HomeStore.ToggleLight | Abode/HomeStore.swift:108-124 | the toggle on the lightbulb service's power state |
| Store.HomeStore.TogglePlug | Abode/HomeStore.swift:212-228 | the toggle on the outlet service's power state |
| Store.HomeStore.ToggleFan | Abode/HomeStore.swift:295-311 | the toggle on the fan service's power state |
| Store.HomeStore.AdjustBrightness | Abode/HomeStore.swift:126-132 | no brightness characteristic means the brightness alert and no write; otherwise the brightness value is written |
| Store.HomeStore.ChangeColor | Abode/HomeStore.swift:176-181 | alerts and writes nothing exactly when colour is not supported; otherwise targets the hue and saturation characteristics |
| Store.HomeStore.SetThermostatTemperature | Abode/HomeStore.swift:232-238 | no target-temperature characteristic means the thermostat alert; otherwise the temperature is written |
| Store.HomeStore.SetWindowCoveringPosition | Abode/HomeStore.swift:275-282 | no position-state characteristic means the window-covering alert; otherwise the position is written |
| Store.HomeStore.SetFanSpeed | Abode/HomeStore.swift:313-319 | no rotation-speed characteristic means the fan-speed alert; otherwise the speed is written |

## Left out

- HomeKit itself is not modelled. The home manager's home list is a parameter of the constructor and of `UpdateHomes`, with `None` standing for a missing home manager. The delegate callback `homeManagerDidUpdateHomes` only calls `updateHomes`.
- Write completions are not modelled. A write is the request the store makes. Alerts from failed completions ("Failed to …" with the error text) and the `print` logging are left out. The brightness follow-up is the decision the completion would make on success (`BrightnessFollowUp`), not part of `AdjustBrightness`.
- AdjustBrightness: does not chain the follow-up itself, because that runs in the write's asynchronous completion handler.
- ChangeColor: does not model the hue and saturation values written, because they are floating-point conversions of a UI colour. It returns only the two characteristics it would write.
- SetThermostatTemperature: the `Double` is a `real`. It is passed through unchanged, so rounding does not matter.
- `value as? Bool` succeeds only on a Boolean value. Bridging numbers to Booleans is not modelled.
- `setupAccessoryObservers` (notification enabling and setting delegates), `executeAction` (running a scene) and the characteristic-change callback that triggers a UI refresh are left out. They are calls into HomeKit or UI notifications, and their behaviour is not in the app.
- Main-thread dispatch and `objectWillChange` are left out. They are threading and UI notification.
- HomeKit objects are values here, not references. The room table is keyed by room value. Two distinct room objects with equal fields would be two keys in the app but one key here. Both would list the same accessories. `selectedHome` is the home as it was when it was selected. In the app it is a live object, and `updateHomes` keeps the selection without recomputing `accessories` or `rooms`, so those lists can fall behind the home there; the model does not capture that drift.
- The lock control code is commented out in the source, so it is not modelled.
- The SwiftUI views and the app entry point are not part of this model.
