/**
 * `bleep/service.py`, the older API: a service discovers its
 * characteristics once, on construction, as a list in discovery order,
 * filters it by UUID, and offers a unique lookup that raises RuntimeError
 * on zero or several matches.
 */
module BleServices {
  import opened Wrappers
  import opened Util
  import opened Grouping
  import opened Discovery
  import opened BleCharacteristics

  function BleCharacteristicUuid(c: BleCharacteristic): (u: Uuid) { c.uuid }

  datatype BleService = BleService(uuid: Uuid, start: int, end: int, characteristics: seq<BleCharacteristic>)
  {
    /** `shortest_uuid`: four characters for a short UUID, the whole 36 otherwise. */
    function ShortestUuid(): (s: string) {
      Util.ShortestUuid(uuid)
    }

    /** `get_characteristics`: the characteristics with UUID `u`, in list order. */
    function GetCharacteristics(u: Uuid): (r: seq<BleCharacteristic>)
      ensures forall i :: 0 <= i < |r| ==> r[i] in characteristics && r[i].uuid == u
      ensures forall i :: 0 <= i < |characteristics| && characteristics[i].uuid == u ==> characteristics[i] in r
    {
      Select(characteristics, BleCharacteristicUuid, u)
    }

    /** `get_characteristic`: the only characteristic with UUID `u`, or the error the source raises. */
    function GetCharacteristic(u: Uuid): (r: Result<BleCharacteristic, Error>)
      ensures r.Ok? ==> r.value in characteristics && r.value.uuid == u
      ensures r.Err? ==> r.error.message in {"characteristic not found.", "too many characteristics with this uuid"}
    {
      match MatchOf(characteristics, BleCharacteristicUuid, u)
      case NoMatch => Err(RuntimeError("characteristic not found."))
      case ManyMatches => Err(RuntimeError("too many characteristics with this uuid"))
      case OneMatch(c) => Ok(c)
    }
  }

  /** The older characteristic a declaration and the device's descriptor answers give. */
  function BuildCharacteristic(d: CharacteristicDecl, discover: DescriptorDiscovery): (c: BleCharacteristic)
    ensures Declaration(c) == d
  {
    BleCharacteristic(d.handle, d.valueHandle, d.endHandle, d.uuid, d.properties,
                      DescriptorList(DiscoveredDescriptors(d.valueHandle, d.endHandle, discover)))
  }

  /** A characteristic seen as the declaration it was built from. */
  function Declaration(c: BleCharacteristic): (d: CharacteristicDecl) {
    CharacteristicDecl(c.handle, c.valueHandle, c.endHandle, c.uuid, c.properties)
  }

  /** One characteristic per declaration, in order. */
  function CharacteristicList(decls: seq<CharacteristicDecl>, discover: DescriptorDiscovery): (cs: seq<BleCharacteristic>)
    ensures |cs| == |decls|
    ensures forall i :: 0 <= i < |cs| ==> Declaration(cs[i]) == decls[i]
  {
    seq(|decls|, i requires 0 <= i < |decls| => BuildCharacteristic(decls[i], discover))
  }

  /**
   * `_get_characteristics`: one characteristic per discovered entry, in
   * discovery order, with its end handle taken from the next entry or from
   * the service's end.
   */
  method DiscoverCharacteristics(start: int, end: int, discoverChars: CharacteristicDiscovery, discoverDescs: DescriptorDiscovery)
    returns (characteristics: seq<BleCharacteristic>)
    ensures characteristics == CharacteristicList(Layout(discoverChars(start, end), end), discoverDescs)
  {
    characteristics := [];
    var rawChars := discoverChars(start, end);
    ghost var decls := Layout(rawChars, end);
    for i := 0 to |rawChars|
      invariant characteristics == CharacteristicList(decls[..i], discoverDescs)
    {
      var raw := rawChars[i];
      var endHandle;
      if i == |rawChars| - 1 {
        endHandle := end - 1;
      } else {
        endHandle := rawChars[i + 1].handle - 1;
      }
      var c := NewCharacteristic(raw.handle, raw.valueHandle, endHandle, raw.uuid, raw.properties, discoverDescs);
      assert c == BuildCharacteristic(decls[i], discoverDescs);
      characteristics := characteristics + [c];
    }
    assert decls[..|rawChars|] == decls;
  }

  /** `BLEService(...)`: the fields as given, and the characteristics its range yields. */
  method NewService(uuid: Uuid, start: int, end: int, discoverChars: CharacteristicDiscovery, discoverDescs: DescriptorDiscovery)
    returns (s: BleService)
    ensures s == BleService(uuid, start, end, CharacteristicList(Layout(discoverChars(start, end), end), discoverDescs))
  {
    var characteristics := DiscoverCharacteristics(start, end, discoverChars, discoverDescs);
    s := BleService(uuid, start, end, characteristics);
  }

  /**
   * The older list holds exactly the discovered entries, in order: each
   * keeps its handle, value handle, UUID and properties and gets the end
   * handle of its range.
   */
  lemma CharacteristicsFollowDiscovery(raws: seq<RawCharacteristic>, end: int, discover: DescriptorDiscovery)
    ensures |CharacteristicList(Layout(raws, end), discover)| == |raws|
    ensures forall i :: 0 <= i < |raws| ==>
      var c := CharacteristicList(Layout(raws, end), discover)[i];
      && c.handle == raws[i].handle && c.valueHandle == raws[i].valueHandle
      && c.uuid == raws[i].uuid && c.properties == raws[i].properties
      && c.endHandle == EndHandle(raws, i, end)
  {
    var cs := CharacteristicList(Layout(raws, end), discover);
    forall i | 0 <= i < |raws|
      ensures cs[i].handle == raws[i].handle && cs[i].valueHandle == raws[i].valueHandle
      ensures cs[i].uuid == raws[i].uuid && cs[i].properties == raws[i].properties
      ensures cs[i].endHandle == EndHandle(raws, i, end)
    {
      assert Declaration(cs[i]) == Layout(raws, end)[i];
    }
  }

  /** `get_characteristic` fails with "characteristic not found." exactly when no characteristic has the UUID. */
  lemma GetCharacteristicNotFound(s: BleService, u: Uuid)
    ensures s.GetCharacteristic(u) == Err(RuntimeError("characteristic not found."))
        <==> forall i :: 0 <= i < |s.characteristics| ==> s.characteristics[i].uuid != u
  {
    MatchOfNone(s.characteristics, BleCharacteristicUuid, u);
  }

  /** It fails with "too many characteristics with this uuid" exactly when two characteristics share the UUID. */
  lemma GetCharacteristicTooMany(s: BleService, u: Uuid)
    ensures s.GetCharacteristic(u) == Err(RuntimeError("too many characteristics with this uuid"))
        <==> exists i, j :: 0 <= i < j < |s.characteristics| && s.characteristics[i].uuid == u && s.characteristics[j].uuid == u
  {
    MatchOfMany(s.characteristics, BleCharacteristicUuid, u);
  }

  /** Otherwise it returns the only characteristic with the UUID, the sole element of `get_characteristics`. */
  lemma GetCharacteristicUnique(s: BleService, u: Uuid, i: int)
    requires 0 <= i < |s.characteristics| && s.characteristics[i].uuid == u
    requires forall j :: 0 <= j < |s.characteristics| && j != i ==> s.characteristics[j].uuid != u
    ensures s.GetCharacteristic(u) == Ok(s.characteristics[i])
    ensures s.GetCharacteristics(u) == [s.characteristics[i]]
  {
    MatchOfOne(s.characteristics, BleCharacteristicUuid, u, i);
  }

  /** `get_characteristics` keeps list order: filtering a concatenation filters each part in turn. */
  lemma GetCharacteristicsKeepsOrder(s: BleService, n: int, u: Uuid)
    requires 0 <= n <= |s.characteristics|
    ensures s.GetCharacteristics(u)
         == Select(s.characteristics[..n], BleCharacteristicUuid, u) + Select(s.characteristics[n..], BleCharacteristicUuid, u)
  {
    assert s.characteristics == s.characteristics[..n] + s.characteristics[n..];
    SelectAppend(s.characteristics[..n], s.characteristics[n..], BleCharacteristicUuid, u);
  }

  /**
   * The two API generations agree on the same discovery answers: a UUID
   * has a list in the `gatt` service's dictionary exactly when the older
   * `get_characteristics` finds something for it, and that list holds the
   * same declarations in the same order.
   */
  lemma ApisAgree(raws: seq<RawCharacteristic>, end: int, discover: DescriptorDiscovery, uuid: Uuid, start: int, u: Uuid)
    ensures var s := BleService(uuid, start, end, CharacteristicList(Layout(raws, end), discover));
      && (u in Group(Layout(raws, end), DeclUuid) <==> s.GetCharacteristics(u) != [])
      && (u in Group(Layout(raws, end), DeclUuid) ==>
            Group(Layout(raws, end), DeclUuid)[u] == MapSeq(s.GetCharacteristics(u), Declaration))
  {
    var decls := Layout(raws, end);
    var cs := CharacteristicList(decls, discover);
    var s := BleService(uuid, start, end, cs);
    assert MapSeq(cs, Declaration) == decls;
    SelectMapSeq(cs, Declaration, BleCharacteristicUuid, DeclUuid, u);
    GroupIsSelect(decls, DeclUuid);
    GroupKeys(decls, DeclUuid);
    if u !in Group(decls, DeclUuid) {
      SelectAbsent(decls, DeclUuid, u);
    }
  }
}
