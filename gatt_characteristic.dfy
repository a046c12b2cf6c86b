/**
 * `bleep/gatt/characteristic.py`: a GATT attribute keeps the callbacks
 * registered for its notifications and indications and calls them in
 * registration order; a characteristic is an attribute with a declaration
 * handle, an end handle and properties, whose descriptors are discovered
 * once, on construction, and kept as a dictionary of lists keyed by UUID.
 *
 * The source's `GATTCharacteristic` inherits from `GATTAttribute`; here it
 * holds its attribute part as `attribute`. A `GATTDescriptor` adds nothing
 * to `GATTAttribute`, so descriptors are `GattAttribute` objects.
 */
module GattAttributes {
  import opened Wrappers
  import opened Util
  import opened Grouping
  import opened Discovery

  /** One call of a registered callback, `callback(data)`. */
  datatype Invocation = Invocation(callback: Callback, data: seq<byte>)

  /** Calling every callback of `callbacks` with `data`, one after the other. */
  method Broadcast(callbacks: seq<Callback>, data: seq<byte>) returns (calls: seq<Invocation>)
    ensures |calls| == |callbacks|
    ensures forall i :: 0 <= i < |calls| ==> calls[i] == Invocation(callbacks[i], data)
  {
    calls := [];
    for i := 0 to |callbacks|
      invariant |calls| == i
      invariant forall j :: 0 <= j < i ==> calls[j] == Invocation(callbacks[j], data)
    {
      calls := calls + [Invocation(callbacks[i], data)];
    }
  }

  class GattAttribute {
    const valueHandle: int
    const uuid: Uuid
    var notificationCallbacks: seq<Callback>
    var indicationCallbacks: seq<Callback>

    /** A fresh attribute starts with no callbacks registered. */
    constructor (handle: int, uuid: Uuid)
      ensures valueHandle == handle && this.uuid == uuid
      ensures notificationCallbacks == [] && indicationCallbacks == []
    {
      valueHandle := handle;
      this.uuid := uuid;
      notificationCallbacks := [];
      indicationCallbacks := [];
    }

    /** `notify`: registers for notifications only. */
    method Notify(callback: Callback)
      modifies this
      ensures notificationCallbacks == old(notificationCallbacks) + [callback]
      ensures indicationCallbacks == old(indicationCallbacks)
    {
      notificationCallbacks := notificationCallbacks + [callback];
    }

    /** `indicate`: registers for indications only. */
    method Indicate(callback: Callback)
      modifies this
      ensures indicationCallbacks == old(indicationCallbacks) + [callback]
      ensures notificationCallbacks == old(notificationCallbacks)
    {
      indicationCallbacks := indicationCallbacks + [callback];
    }

    /** `_on_notification`: every notification callback once, in registration order, with the same data. */
    method OnNotification(data: seq<byte>) returns (calls: seq<Invocation>)
      ensures |calls| == |notificationCallbacks|
      ensures forall i :: 0 <= i < |calls| ==> calls[i] == Invocation(notificationCallbacks[i], data)
    {
      calls := Broadcast(notificationCallbacks, data);
    }

    /** `_on_indication`: the same over the indication callbacks. */
    method OnIndication(data: seq<byte>) returns (calls: seq<Invocation>)
      ensures |calls| == |indicationCallbacks|
      ensures forall i :: 0 <= i < |calls| ==> calls[i] == Invocation(indicationCallbacks[i], data)
    {
      calls := Broadcast(indicationCallbacks, data);
    }
  }

  /** A descriptor object seen as the discovery entry it was built from. */
  function DescriptorView(a: GattAttribute): (d: RawDescriptor) {
    RawDescriptor(a.valueHandle, a.uuid)
  }

  /** No object of the set has a callback registered yet. */
  ghost predicate Unregistered(s: set<GattAttribute>)
    reads s
  {
    forall a :: a in s ==> a.notificationCallbacks == [] && a.indicationCallbacks == []
  }

  lemma UnregisteredUnion(s: set<GattAttribute>, t: set<GattAttribute>)
    requires Unregistered(s) && Unregistered(t)
    ensures Unregistered(s + t)
  {
  }

  lemma UnregisteredSubset(s: set<GattAttribute>, t: set<GattAttribute>)
    requires s <= t && Unregistered(t)
    ensures Unregistered(s)
  {
  }

  /** No object in a bucket map has a callback registered yet. */
  ghost predicate AllUnregistered(m: map<Uuid, seq<GattAttribute>>)
    reads Elements(m)
  {
    Unregistered(Elements(m))
  }

  lemma UnregisteredInsert(m: map<Uuid, seq<GattAttribute>>, k: Uuid, d: GattAttribute)
    requires AllUnregistered(m)
    requires d.notificationCallbacks == [] && d.indicationCallbacks == []
    ensures AllUnregistered(Insert(m, k, d))
  {
    ElementsInsert(m, k, d);
  }

  /** One object stored twice, as for two equal entries, is not distinct. */
  lemma SharedObjectNotDistinct(u: Uuid, a: GattAttribute)
    ensures !Distinct(map[u := [a, a]])
  {
    var m := map[u := [a, a]];
    assert m[u][0] == m[u][1];
  }

  /**
   * `_discover_descriptors`: nothing when `value_handle + 1 > end_handle`;
   * otherwise one descriptor per discovered entry, appended to the list
   * under its UUID in discovery order, keeping what was grouped when the
   * discovery raises.
   */
  method DiscoverDescriptors(valueHandle: int, endHandle: int, discover: DescriptorDiscovery)
    returns (descriptors: map<Uuid, seq<GattAttribute>>)
    ensures MapBuckets(descriptors, DescriptorView)
         == Group(DiscoveredDescriptors(valueHandle, endHandle, discover), DescriptorUuid)
    ensures AllUnregistered(descriptors) && Distinct(descriptors)
    ensures fresh(Elements(descriptors))
  {
    descriptors := map[];
    if valueHandle + 1 > endHandle {
      return;
    }
    var entries := discover(valueHandle + 1, endHandle).entries;
    for i := 0 to |entries|
      invariant MapBuckets(descriptors, DescriptorView) == Group(entries[..i], DescriptorUuid)
      invariant AllUnregistered(descriptors) && Distinct(descriptors)
      invariant fresh(Elements(descriptors))
    {
      var desc := new GattAttribute(entries[i].handle, entries[i].uuid);
      assert AllUnregistered(descriptors);
      ElementsInsert(descriptors, desc.uuid, desc);
      assert fresh(Elements(descriptors) + {desc});
      UnregisteredInsert(descriptors, desc.uuid, desc);
      DistinctInsert(descriptors, desc.uuid, desc);
      GroupStep(descriptors, DescriptorView, DescriptorUuid, entries, i, desc, desc.uuid);
      descriptors := Insert(descriptors, desc.uuid, desc);
    }
    assert entries[..|entries|] == entries;
    // A RuntimeError that ends the discovery is caught and ignored: the
    // descriptors grouped before it are kept.
  }

  class GattCharacteristic {
    /** The `GATTAttribute` part: value handle, UUID and callbacks. */
    const attribute: GattAttribute
    /** The declaration handle, kept apart from the value handle. */
    const handle: int
    const endHandle: int
    const properties: int
    const descriptors: map<Uuid, seq<GattAttribute>>

    constructor (handle: int, valueHandle: int, endHandle: int, uuid: Uuid, properties: int, discover: DescriptorDiscovery)
      ensures this.handle == handle && this.endHandle == endHandle && this.properties == properties
      ensures attribute.valueHandle == valueHandle && attribute.uuid == uuid
      ensures attribute.notificationCallbacks == [] && attribute.indicationCallbacks == []
      ensures MapBuckets(descriptors, DescriptorView)
           == Group(DiscoveredDescriptors(valueHandle, endHandle, discover), DescriptorUuid)
      ensures AllUnregistered(descriptors) && Distinct(descriptors)
      ensures fresh(attribute) && fresh(Elements(descriptors)) && attribute !in Elements(descriptors)
      ensures fresh(Parts(this)) && Unregistered(Parts(this))
    {
      attribute := new GattAttribute(valueHandle, uuid);
      this.handle := handle;
      this.endHandle := endHandle;
      this.properties := properties;
      var found := DiscoverDescriptors(valueHandle, endHandle, discover);
      descriptors := found;
    }
  }

  /** The objects a characteristic owns: its attribute part and its descriptors. */
  ghost function Parts(c: GattCharacteristic): set<GattAttribute> {
    {c.attribute} + Elements(c.descriptors)
  }
}
