# bleep in Dafny

A model of the logic in bleep, a Bluetooth Low Energy library for Python, that runs on top of its native GATT calls.
The answers of the native calls (`discover_primary`, `discover_characteristics`, `discover_descriptors`, `is_connected`) are inputs to the model.
On top of those answers the library does the following:

- It gives every discovered characteristic the end of its handle range. That is the next declaration's handle minus one, or the service's end handle minus one for the last characteristic.
- It asks for descriptors only when the value handle leaves room for them before that end handle. A RuntimeError from that discovery is swallowed.
- The `gatt` API keeps characteristics and descriptors as dictionaries of lists keyed by UUID, in discovery order.
- The older API keeps plain lists. It filters them by UUID and offers a unique lookup that raises on zero matches and on several.
- It tells 16-bit "short" UUIDs apart by comparing them with the Bluetooth Base UUID (Bluetooth Core Specification Vol 3, Part B, section 2.5.1). It shortens them to four characters of their RFC 4122 (section 3) string form.
- It turns the int, list or bytes a client writes into the byte string the ATT write carries.
- It strips the three-byte header of an ATT Handle Value Notification (Bluetooth Core Specification Vol 3, Part F, section 3.4.7.1).
- It keeps only the latest notification, in a single slot guarded by an event flag.

Modules, one per source file, plus two shared ones:

| module | file | models |
|---|---|---|
| `Wrappers` | wrappers.dfy | `Option`, `Result`, bytes, opaque callables |
| `Grouping` | grouping.dfy | the list filter and the dictionary of lists, proved to agree; the zero/one/many lookup |
| `Util` | util.dfy | `bleep/util.py`: UUID fields, `BASE_UUID`, `is_short_uuid`, `str(uuid)`, the short form |
| `Discovery` | discovery.dfy | end handles and descriptor-range gating, which both API generations share |
| `GattAttributes` | gatt_characteristic.dfy | `bleep/gatt/characteristic.py`, as classes |
| `GattServices` | gatt_service.dfy | `bleep/gatt/service.py`, as classes |
| `BleCharacteristics` | ble_characteristic.dfy | `bleep/characteristic.py`, as values with loop methods |
| `BleServices` | ble_service.dfy | `bleep/service.py`, as values with loop methods |
| `Requesters` | requester.dfy | `bleep/requester.py`, as a class |
| `Devices` | device.dfy | `bleep/device.py`, as a class plus pure write conversion |

The `gatt` objects are classes. Only the callback lists change after construction, so everything else is a `const` field. Their discovery loops are methods, proved against value-level specifications:

- the bucket map seen through `CharacteristicView` or `DescriptorView` equals `Group` of the discovered entries;
- `Group` is proved to be the filter `Select` key by key.

The older API's objects are never updated, so they are datatypes. Their discovery loops are methods proved equal to list functions.

## Model

| member | source | states |
|---|---|---|
| `Util.IsShortUuid` | bleep/util.py:36-37 | fields 1 to 5 are compared with the Base UUID's and field 0 is not, so a short UUID is the Base UUID with its own time_low |
| `Util.IsShortUuidFields` | bleep/util.py:36-37 | a UUID is short exactly when time_mid = 0, time_hi_version = 0x1000, clock_seq_hi_variant = 0x80, clock_seq_low = 0 and node = 0x00805F9B34FB |
| `Util.ShortIsBaseAlias` | bleep/util.py:36-37 | a UUID is short exactly when it is the Base UUID with its own time_low |
| `Util.BaseIsShort` | bleep/util.py:30 | `BASE_UUID` itself is short |
| `Util.EveryAliasIsShort` | bleep/util.py:37 | every xxxxxxxx-0000-1000-8000-00805f9b34fb is short, including time_low values above 0xFFFF |
| `Util.ShortIgnoresTimeLow` | bleep/util.py:37 | changing time_low (field 0) never changes shortness |
| `Util.Str` | bleep/characteristic.py:39 | `str(uuid)` has 36 characters with dashes at positions 8, 13, 18 and 23 |
| `Util.StrInjective` | bleep/characteristic.py:39 | two UUIDs with the same string are the same UUID |
| `Util.ShortestUuid` | bleep/characteristic.py:35-39 | for a short UUID, the 4 characters that are the last four hex digits of its time_low; otherwise the full 36-character string |
| `Util.ShortestUuidInjective` | bleep/characteristic.py:35-39 | different long UUIDs, and different 16-bit aliases, get different names |
| `Util.ShortestUuidDropsHighBits` | bleep/characteristic.py:36-37 | 0001180d-0000-1000-8000-00805f9b34fb and 0000180d-… are different but both shown as "180d" |
| `Discovery.Layout` | bleep/gatt/service.py:73-76 | one declaration per discovered entry, each with the end handle `EndHandle` computes; `LayoutHandles` states its fields |
| `Discovery.LayoutHandles` | bleep/gatt/service.py:67-78 | handle, value handle, UUID and properties are copied; end handle is the next entry's handle − 1, and the service end − 1 for the last |
| `Discovery.LayoutTiles` | bleep/gatt/service.py:73-76 | for a well-formed answer, ranges are non-empty and consecutive, and end at most at the service end − 1 |
| `Discovery.OwnerOf` | bleep/gatt/service.py:73-76 | every handle from the first declaration to the service end − 1 lies in exactly one characteristic's range |
| `Discovery.ServiceEndUnowned` | bleep/gatt/service.py:73-74 | the service's own end handle lies in no characteristic's range |
| `Discovery.DescriptorRange` | bleep/gatt/characteristic.py:151-155 | descriptor discovery is issued exactly when value_handle + 1 ≤ end_handle, for exactly value_handle + 1 .. end_handle |
| `Discovery.DiscoveredDescriptors` | bleep/gatt/characteristic.py:151-155 | no entries when value_handle + 1 > end_handle; otherwise exactly the entries the discovery of value_handle + 1 .. end_handle yields before any RuntimeError |
| `Discovery.DiscoveredDescriptorsLocal` | bleep/gatt/characteristic.py:154-165 | the descriptors depend only on the answer for that one range, and not on whether the discovery raised RuntimeError |
| `Discovery.DescriptorRangesDisjoint` | bleep/gatt/characteristic.py:151-155 | on a well-formed answer, the descriptor searches of two characteristics never overlap, never cover a declaration or value handle, and stay below the service end |
| `Grouping.Select` | bleep/service.py:65-66 | the filter holds only elements of the list with the key, and every element with the key |
| `Grouping.SelectAppend` | bleep/service.py:66 | the filter keeps list order: filtering a + b is the filter of a followed by the filter of b |
| `Grouping.Insert` | bleep/gatt/service.py:80-83 | the key gains a list ending in the new element after the old list (or none); other keys are unchanged |
| `Grouping.Group` | bleep/gatt/service.py:80-83 | the dictionary of lists built entry by entry; no list in it is empty |
| `Grouping.GroupKeys` | bleep/gatt/service.py:80-83 | a key is present exactly when some entry carries it |
| `Grouping.GroupIsSelect` | bleep/gatt/service.py:67-83 | each list in the dictionary is the order-preserving filter of the entries on its key |
| `Grouping.GroupSnoc` | bleep/gatt/service.py:80-83 | a later entry with the same UUID is appended after the earlier ones |
| `Grouping.BucketsCarryKey` | bleep/gatt/service.py:80-83 | every element of a list carries that list's key |
| `Grouping.GroupTotalSize` | bleep/gatt/service.py:67-83 | the list sizes add up to the number of entries |
| `Grouping.MapBucketsInsert` | bleep/gatt/characteristic.py:156-161 | viewing objects as the entries they were built from commutes with inserting them |
| `Grouping.GroupStep` | bleep/gatt/characteristic.py:155-161 | one loop step keeps the object dictionary equal, through the view, to the grouping of the entries seen so far |
| `Grouping.SelectMapSeq` | bleep/service.py:66 | filtering commutes with a view that keeps the UUID |
| `Grouping.SelectCount` | bleep/service.py:70 | the filter has one element per matching position |
| `Grouping.MatchOf` | bleep/service.py:70-78 | a single match is an element of the list that carries the key |
| `Grouping.MatchOfNone` | bleep/service.py:72-73 | the lookup finds nothing exactly when no element carries the key |
| `Grouping.MatchOfMany` | bleep/service.py:74-76 | the lookup finds several exactly when two different positions carry the key |
| `Grouping.MatchOfOne` | bleep/service.py:78 | with a single matching position, the lookup returns that element |
| `GattAttributes.Broadcast` | bleep/gatt/characteristic.py:92-98 | one call per callback, in order, each with the same data |
| `GattAttributes.GattAttribute.constructor` | bleep/gatt/characteristic.py:34-54 | handle and UUID are stored; both callback lists start empty |
| `GattAttributes.GattAttribute.Notify` | bleep/gatt/characteristic.py:74-81 | appends to the notification list only; the indication list is unchanged |
| `GattAttributes.GattAttribute.Indicate` | bleep/gatt/characteristic.py:83-90 | appends to the indication list only; the notification list is unchanged |
| `GattAttributes.GattAttribute.OnNotification` | bleep/gatt/characteristic.py:92-94 | every notification callback is called once, in registration order, with the same data |
| `GattAttributes.GattAttribute.OnIndication` | bleep/gatt/characteristic.py:96-98 | likewise for the indication callbacks |
| `Grouping.DistinctInsert` | bleep/gatt/characteristic.py:156-161 | inserting an object that is not yet in the dictionary keeps every object at one place only |
| `GattAttributes.SharedObjectNotDistinct` | bleep/gatt/characteristic.py:156 | a dictionary holding one object for two entries is not distinct, so each entry gets its own object |
| `GattAttributes.DiscoverDescriptors` | bleep/gatt/characteristic.py:148-167 | the dictionary, seen through the descriptors' entries, is the grouping by UUID of what the gated discovery yields before any RuntimeError; every descriptor is a newly allocated object with no callbacks, and no object appears at two places |
| `GattAttributes.GattCharacteristic.constructor` | bleep/gatt/characteristic.py:129-146 | value handle and UUID go to a new attribute part with no callbacks, and the declaration handle is kept apart; end handle and properties are stored; the descriptors are grouped as `DiscoverDescriptors` states, all new, without callbacks, each at one place, and none of them is the attribute part |
| `GattServices.DiscoverCharacteristics` | bleep/gatt/service.py:60-85 | the dictionary, seen through the declarations, is the grouping by UUID of the discovered entries with their end handles; each characteristic holds the descriptors of its own range; every characteristic, its attribute part and its descriptors are newly allocated objects with no callbacks; no characteristic appears at two places, within one characteristic no descriptor appears twice and none is the attribute part, and two characteristics share no object |
| `GattServices.AddCharacteristic` | bleep/gatt/service.py:78-83 | one pass of the loop: the new characteristic goes at the end of its UUID's list, the grouping grows by that entry, and every object the grown dictionary holds is new, without callbacks and owned by one characteristic only |
| `GattServices.NewCharacteristic` | bleep/gatt/service.py:78 | the characteristic built for one entry carries that entry's handles, UUID and properties and the descriptors of its range; its objects are new, so none of the existing objects is among them and those keep their callbacks |
| `GattServices.OwnedAppended` | bleep/gatt/service.py:80-83 | appending a characteristic whose objects no other characteristic owns keeps every characteristic at one place, owning objects of its own, and adds exactly its objects to the dictionary's |
| `GattServices.CharacteristicUnregistered` | bleep/gatt/service.py:60-85 | in a dictionary as discovery leaves it, a characteristic has no callback on its attribute part or on any of its descriptors |
| `GattServices.CharacteristicsApart` | bleep/gatt/service.py:78 | two different characteristics of the dictionary have different attribute parts and disjoint descriptors, and neither's attribute part is a descriptor of the other |
| `GattServices.CharacteristicBuckets` | bleep/gatt/service.py:67-83 | keys are exactly the discovered UUIDs; lists are non-empty, each is the entries with its UUID in discovery order, and their sizes add up to the number of entries |
| `GattServices.NoCharacteristics` | bleep/gatt/service.py:61-67 | an empty discovery gives an empty dictionary |
| `GattServices.GattService.constructor` | bleep/gatt/service.py:38-58 | UUID, start and end are stored; the characteristics are as `DiscoverCharacteristics` states: grouped by UUID, each holding its own descriptors, all objects new, without callbacks and owned by exactly one characteristic at one place |
| `BleCharacteristics.BleDescriptor.ShortestUuid` | bleep/characteristic.py:35-39 | the descriptor's short form is `Util.ShortestUuid` of its UUID |
| `BleCharacteristics.BleCharacteristic.ShortestUuid` | bleep/characteristic.py:75-79 | the same for characteristics |
| `BleCharacteristics.BleCharacteristic.GetDescriptors` | bleep/characteristic.py:81-82 | only descriptors of the characteristic with that UUID, and all of them |
| `BleCharacteristics.GetDescriptorsKeepsOrder` | bleep/characteristic.py:81-82 | `get_descriptors` keeps list order |
| `BleCharacteristics.BleCharacteristic.GetDescriptor` | bleep/characteristic.py:84-94 | a returned descriptor belongs to the characteristic and has the UUID; an error is a RuntimeError with one of the two messages |
| `BleCharacteristics.GetDescriptorNotFound` | bleep/characteristic.py:86-89 | RuntimeError("descriptor not found.") exactly when no descriptor has the UUID |
| `BleCharacteristics.GetDescriptorTooMany` | bleep/characteristic.py:90-92 | RuntimeError("too many descriptors with this uuid") exactly when two descriptors have it |
| `BleCharacteristics.GetDescriptorUnique` | bleep/characteristic.py:84-94 | with a single match, `get_descriptor` returns it and it is the sole element of `get_descriptors` |
| `BleCharacteristics.DescriptorList` | bleep/characteristic.py:102-104 | one descriptor per discovered entry, in order, with its handle and UUID |
| `BleCharacteristics.DiscoverDescriptors` | bleep/characteristic.py:96-107 | the list is empty without room in the range; otherwise it is one descriptor per entry yielded for value_handle + 1 .. end_handle, ending where a RuntimeError ends the discovery |
| `BleCharacteristics.NoRoomNoDescriptors` | bleep/characteristic.py:97-99 | no descriptors when value_handle + 1 > end_handle |
| `BleCharacteristics.NewCharacteristic` | bleep/characteristic.py:54-64 | the fields as given and the descriptors of its range |
| `BleCharacteristics.DescriptorApisAgree` | bleep/characteristic.py:81-82 | for the same entries, the `gatt` dictionary has a list for a UUID exactly when `get_descriptors` finds some, and it holds the same entries in the same order |
| `BleServices.BleService.ShortestUuid` | bleep/service.py:43-47 | the same short form for services |
| `BleServices.BleService.GetCharacteristics` | bleep/service.py:65-66 | only characteristics of the service with that UUID, and all of them |
| `BleServices.GetCharacteristicsKeepsOrder` | bleep/service.py:65-66 | `get_characteristics` keeps list order |
| `BleServices.BleService.GetCharacteristic` | bleep/service.py:68-78 | a returned characteristic belongs to the service and has the UUID; an error is a RuntimeError with one of the two messages |
| `BleServices.GetCharacteristicNotFound` | bleep/service.py:72-73 | RuntimeError("characteristic not found.") exactly when no characteristic has the UUID |
| `BleServices.GetCharacteristicTooMany` | bleep/service.py:74-76 | RuntimeError("too many characteristics with this uuid") exactly when two characteristics have it |
| `BleServices.GetCharacteristicUnique` | bleep/service.py:68-78 | with a single match, `get_characteristic` returns it and it is the sole element of `get_characteristics` |
| `BleServices.BuildCharacteristic` | bleep/service.py:63 | the characteristic carries the declaration's handles, UUID and properties |
| `BleServices.CharacteristicList` | bleep/service.py:59-63 | one characteristic per declaration, in order, carrying that declaration's fields |
| `BleServices.DiscoverCharacteristics` | bleep/service.py:49-63 | the list is one characteristic per discovered entry, in discovery order, with its end handle |
| `BleServices.CharacteristicsFollowDiscovery` | bleep/service.py:52-63 | exactly one characteristic per entry: fields copied, end handle from the next entry or the service end − 1 |
| `BleServices.NewService` | bleep/service.py:31-41 | the fields as given and the characteristics of its range |
| `BleServices.ApisAgree` | bleep/service.py:65-66 | for the same answers, the `gatt` dictionary has a list for a UUID exactly when `get_characteristics` finds some, and it holds the same declarations in the same order |
| `Requesters.Event.constructor` | bleep/device.py:43 | a new `threading.Event` starts unset |
| `Requesters.Event.Set` | bleep/device.py:59 | `set()` leaves the flag set |
| `Requesters.Event.Clear` | bleep/device.py:69 | `clear()` leaves the flag unset |
| `Requesters.NotificationPdu` | bleep/requester.py:37 | a notification PDU is 3 + n bytes: opcode 0x1B, the little-endian handle, then the value |
| `Requesters.StripHeader` | bleep/requester.py:37 | the payload drops the first three bytes, is empty for 3 bytes or fewer, and keeps the rest in order |
| `Requesters.StripNotification` | bleep/requester.py:37 | stripping a notification PDU gives back exactly its value |
| `Requesters.StripSplits` | bleep/requester.py:37 | a PDU of at least 3 bytes is its header followed by the payload |
| `Requesters.Requester.constructor` | bleep/requester.py:27-31 | no callback and no event at first; not connected |
| `Requesters.Requester.SetNotificationEvent` | bleep/requester.py:33-34 | installs the event; the callback is unchanged |
| `Requesters.Requester.Connect` | bleep/device.py:78 | the native connect leaves the requester connected and its callback and event unchanged |
| `Requesters.Requester.Dispatch` | bleep/requester.py:36-40 | the callback is called with (handle, stripped payload) only when one is installed |
| `Requesters.Requester.SignalEvent` | bleep/requester.py:42 | the event is set, or an AttributeError is raised when none was installed |
| `Requesters.Requester.OnNotification` | bleep/requester.py:36-42 | the callback call as above, then the event set on every notification, or AttributeError without an event |
| `Devices.BytesOf` | bleep/device.py:113 | `bytes(list)` succeeds exactly when every element is in 0..255, gives those values in order, and otherwise raises ValueError |
| `Devices.ToBytes` | bleep/device.py:109-117 | an int becomes the one byte [data] when in 0..255; a list becomes its bytes in order; bytes pass unchanged; anything else raises NotImplementedError("Unsupported data type") |
| `Devices.IntIsSingletonList` | bleep/device.py:110-113 | an int is written exactly as the one-element list holding it, errors included |
| `Devices.ListMatchesBytes` | bleep/device.py:112-115 | a list of byte values and the bytes with those values write the same bytes |
| `Devices.WriteHandle` | bleep/device.py:104-117 | a Write Request to the handle with the converted bytes, or the conversion's error and no write |
| `Devices.WriteHandleWithoutResponse` | bleep/device.py:119-132 | a Write Command to the handle with the converted bytes, or the same error and no write |
| `Devices.WritesAgree` | bleep/device.py:124-132 | both writes accept and refuse the same values and send the same bytes to the same handle |
| `Devices.ServiceFor` | bleep/device.py:84-89 | the service built for a primary entry carries its UUID, start and end |
| `Devices.ServiceList` | bleep/device.py:83-93 | one service per primary entry, in order, with its UUID, start and end; duplicate UUIDs are kept |
| `Devices.BleDevice.constructor` | bleep/device.py:32-49 | no services, no client callback and no stored notification; a fresh unset event; a fresh unconnected requester wired to the event and to this device |
| `Devices.BleDevice.Notify` | bleep/device.py:51-52 | replaces the client callback with the one given, or with none, and nothing else |
| `Devices.BleDevice.OnNotification` | bleep/device.py:54-62 | the latest handle and data overwrite the slot, consumed or not; the event is set; the client callback is called with them only when registered |
| `Devices.BleDevice.WaitNotification` | bleep/device.py:67-71 | once the event is set, returns the latest stored data and clears the event; the handle argument is ignored |
| `Devices.BleDevice.Deliver` | bleep/requester.py:36-42 | a PDU passed through the wired requester leaves the device holding the handle and the stripped payload, with the event set and no error |
| `Devices.BleDevice.Connected` | bleep/device.py:64-65 | what the requester's `is_connected()` answers |
| `Devices.BleDevice.Connect` | bleep/device.py:73-93 | nothing changes when already connected; otherwise it connects and appends one older-API service per primary entry, in order |

## Left out

- Native calls: `discover_primary`, `discover_characteristics`, `discover_descriptors`, `read_by_handle`, `write_by_handle`, `write_without_response_by_handle`, `connect` and `is_connected`. Their answers are parameters: functions of the handle range, a list of primary entries, a connected flag. A RuntimeError from `discover_characteristics` or `discover_primary` would propagate and is not modelled.
- `DescriptorDiscoveryOutcome.raisedRuntimeError`: it records whether the descriptor discovery raised. Both APIs ignore the error, and `Discovery.DiscoveredDescriptorsLocal` proves the result does not depend on it.
- Registered callbacks are not run. Each call is returned as a value (`Invocation`, `NotificationCall`, `ClientCall`), so an exception raised inside a callback, which would stop the remaining calls, is not modelled.
- `register_handle` (bleep/gatt/characteristic.py:50): a call on the device that `BLEDevice` in bleep/device.py does not define. `BLEUUID` and `UUIDAccessor` are imported from `bleep/util.py` but not defined in it. All three are not part of this model. The `descriptor`/`descriptors`/`characteristic`/`characteristics` accessors built from `UUIDAccessor` are left out with them; the dictionaries they wrap are modelled.
- `read`, `write` and `write_without_response` on attributes, descriptors and characteristics, and `BLEDevice.read_handle`: they only forward to the native calls. `GATTAttribute.write` passes three arguments to the two-argument `write_handle`.
- `threading.Event` blocking and wake-up: only the flag is modelled. `Devices.BleDevice.WaitNotification` requires the flag set, where the source would block until it is.
- `BLEDevice.discoverDevices`: a native scan.
- `__repr__` and the JSON name tables: file I/O and display.
- Logging.
- UUID parsing by `uuid.UUID(...)`: a UUID is its six fields.
- `bytes_to_native_str` and the Python 2/3 `future` types, including `bool` passing as `int`. A list holding non-integers raises TypeError in `bytes(list)`; lists are lists of integers here.
- `Util.ShortestUuidInjective`: holds only for 16-bit aliases (time_low < 0x10000), because wider aliases collide, as `Util.ShortestUuidDropsHighBits` shows.
- `Devices.BleDevice.Deliver`: assumes the wiring the constructor sets up (`Valid`). Replacing `requester.notification_callback` from outside is not modelled at the device level.
- Block transfer, fragmentation and reassembly: bleep contains no code for any of them, so there is nothing to model.
- `src/lib.rs`, `setup.py` and `examples/`: native bindings, packaging and scripts that drive a live device.
