/**
 * `bleep/characteristic.py`, the older API: a characteristic keeps its
 * descriptors as a list in discovery order, filters it by UUID, and offers
 * a unique lookup that raises RuntimeError on zero or several matches.
 * Descriptors and characteristics are values here: the source never
 * updates them after construction.
 */
module BleCharacteristics {
  import opened Wrappers
  import opened Util
  import opened Grouping
  import opened Discovery

  /** A Python exception the older API raises, with its message. */
  datatype Error = RuntimeError(message: string)

  datatype BleDescriptor = BleDescriptor(handle: int, uuid: Uuid)
  {
    /** `shortest_uuid`: four characters for a short UUID, the whole 36 otherwise. */
    function ShortestUuid(): (s: string) {
      Util.ShortestUuid(uuid)
    }
  }

  function BleDescriptorUuid(d: BleDescriptor): (u: Uuid) { d.uuid }

  datatype BleCharacteristic = BleCharacteristic(
    handle: int,
    valueHandle: int,
    endHandle: int,
    uuid: Uuid,
    properties: int,
    descriptors: seq<BleDescriptor>)
  {
    /** `shortest_uuid`, as for descriptors. */
    function ShortestUuid(): (s: string) {
      Util.ShortestUuid(uuid)
    }

    /** `get_descriptors`: the descriptors with UUID `u`, in list order. */
    function GetDescriptors(u: Uuid): (r: seq<BleDescriptor>)
      ensures forall i :: 0 <= i < |r| ==> r[i] in descriptors && r[i].uuid == u
      ensures forall i :: 0 <= i < |descriptors| && descriptors[i].uuid == u ==> descriptors[i] in r
    {
      Select(descriptors, BleDescriptorUuid, u)
    }

    /** `get_descriptor`: the only descriptor with UUID `u`, or the error the source raises. */
    function GetDescriptor(u: Uuid): (r: Result<BleDescriptor, Error>)
      ensures r.Ok? ==> r.value in descriptors && r.value.uuid == u
      ensures r.Err? ==> r.error.message in {"descriptor not found.", "too many descriptors with this uuid"}
    {
      match MatchOf(descriptors, BleDescriptorUuid, u)
      case NoMatch => Err(RuntimeError("descriptor not found."))
      case ManyMatches => Err(RuntimeError("too many descriptors with this uuid"))
      case OneMatch(d) => Ok(d)
    }
  }

  /** One descriptor per discovered entry, in discovery order. */
  function DescriptorList(entries: seq<RawDescriptor>): (ds: seq<BleDescriptor>)
    ensures |ds| == |entries|
    ensures forall i :: 0 <= i < |ds| ==> ds[i].handle == entries[i].handle && ds[i].uuid == entries[i].uuid
  {
    seq(|entries|, i requires 0 <= i < |entries| => BleDescriptor(entries[i].handle, entries[i].uuid))
  }

  /**
   * `_get_descriptors`: an empty list when `value_handle + 1 > end_handle`;
   * otherwise the descriptors the discovery of `value_handle + 1 ..
   * end_handle` yields, the list simply ending where a RuntimeError stops
   * the discovery.
   */
  method DiscoverDescriptors(valueHandle: int, endHandle: int, discover: DescriptorDiscovery)
    returns (descriptors: seq<BleDescriptor>)
    ensures descriptors == DescriptorList(DiscoveredDescriptors(valueHandle, endHandle, discover))
  {
    descriptors := [];
    if valueHandle + 1 > endHandle {
      return;
    }
    var entries := discover(valueHandle + 1, endHandle).entries;
    for i := 0 to |entries|
      invariant descriptors == DescriptorList(entries[..i])
    {
      descriptors := descriptors + [BleDescriptor(entries[i].handle, entries[i].uuid)];
    }
    assert entries[..|entries|] == entries;
  }

  /** `BLECharacteristic(...)`: the fields as given, and the descriptors its range yields. */
  method NewCharacteristic(handle: int, valueHandle: int, endHandle: int, uuid: Uuid, properties: int, discover: DescriptorDiscovery)
    returns (c: BleCharacteristic)
    ensures c == BleCharacteristic(handle, valueHandle, endHandle, uuid, properties,
                                  DescriptorList(DiscoveredDescriptors(valueHandle, endHandle, discover)))
  {
    var descriptors := DiscoverDescriptors(valueHandle, endHandle, discover);
    c := BleCharacteristic(handle, valueHandle, endHandle, uuid, properties, descriptors);
  }

  /** No descriptor list is built when the value handle leaves no room before the end handle. */
  lemma NoRoomNoDescriptors(valueHandle: int, endHandle: int, discover: DescriptorDiscovery)
    requires valueHandle + 1 > endHandle
    ensures DescriptorList(DiscoveredDescriptors(valueHandle, endHandle, discover)) == []
  {
  }

  /** `get_descriptor` fails with "descriptor not found." exactly when no descriptor has the UUID. */
  lemma GetDescriptorNotFound(c: BleCharacteristic, u: Uuid)
    ensures c.GetDescriptor(u) == Err(RuntimeError("descriptor not found."))
        <==> forall i :: 0 <= i < |c.descriptors| ==> c.descriptors[i].uuid != u
  {
    MatchOfNone(c.descriptors, BleDescriptorUuid, u);
  }

  /** It fails with "too many descriptors with this uuid" exactly when two descriptors share the UUID. */
  lemma GetDescriptorTooMany(c: BleCharacteristic, u: Uuid)
    ensures c.GetDescriptor(u) == Err(RuntimeError("too many descriptors with this uuid"))
        <==> exists i, j :: 0 <= i < j < |c.descriptors| && c.descriptors[i].uuid == u && c.descriptors[j].uuid == u
  {
    MatchOfMany(c.descriptors, BleDescriptorUuid, u);
  }

  /** Otherwise it returns the only descriptor with the UUID, the sole element of `get_descriptors`. */
  lemma GetDescriptorUnique(c: BleCharacteristic, u: Uuid, i: int)
    requires 0 <= i < |c.descriptors| && c.descriptors[i].uuid == u
    requires forall j :: 0 <= j < |c.descriptors| && j != i ==> c.descriptors[j].uuid != u
    ensures c.GetDescriptor(u) == Ok(c.descriptors[i])
    ensures c.GetDescriptors(u) == [c.descriptors[i]]
  {
    MatchOfOne(c.descriptors, BleDescriptorUuid, u, i);
  }

  /** `get_descriptors` keeps list order: filtering a concatenation filters each part in turn. */
  lemma GetDescriptorsKeepsOrder(c: BleCharacteristic, n: int, u: Uuid)
    requires 0 <= n <= |c.descriptors|
    ensures c.GetDescriptors(u)
         == Select(c.descriptors[..n], BleDescriptorUuid, u) + Select(c.descriptors[n..], BleDescriptorUuid, u)
  {
    assert c.descriptors == c.descriptors[..n] + c.descriptors[n..];
    SelectAppend(c.descriptors[..n], c.descriptors[n..], BleDescriptorUuid, u);
  }

  /** A descriptor seen as the discovery entry it was built from. */
  function Entry(d: BleDescriptor): (e: RawDescriptor) {
    RawDescriptor(d.handle, d.uuid)
  }

  /**
   * The two API generations agree on the same discovery answer: a UUID
   * has a list in the `gatt` characteristic's dictionary exactly when the
   * older `get_descriptors` finds something for it, and that list holds
   * the same entries in the same order.
   */
  lemma DescriptorApisAgree(entries: seq<RawDescriptor>, u: Uuid)
    ensures u in Group(entries, DescriptorUuid) <==> Select(DescriptorList(entries), BleDescriptorUuid, u) != []
    ensures u in Group(entries, DescriptorUuid) ==>
      Group(entries, DescriptorUuid)[u] == MapSeq(Select(DescriptorList(entries), BleDescriptorUuid, u), Entry)
  {
    var ds := DescriptorList(entries);
    assert MapSeq(ds, Entry) == entries;
    SelectMapSeq(ds, Entry, BleDescriptorUuid, DescriptorUuid, u);
    GroupIsSelect(entries, DescriptorUuid);
    GroupKeys(entries, DescriptorUuid);
    if u !in Group(entries, DescriptorUuid) {
      SelectAbsent(entries, DescriptorUuid, u);
    }
  }
}
