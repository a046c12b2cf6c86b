/**
 * `bleep/gatt/service.py`: a service discovers its characteristics once,
 * on construction, gives each the end of its handle range, and keeps them
 * as a dictionary of lists keyed by UUID, in discovery order.
 */
module GattServices {
  import opened Util
  import opened Grouping
  import opened Discovery
  import opened GattAttributes

  /** A characteristic object seen as the declaration it was built from. */
  function CharacteristicView(c: GattCharacteristic): (d: CharacteristicDecl) {
    CharacteristicDecl(c.handle, c.attribute.valueHandle, c.endHandle, c.attribute.uuid, c.properties)
  }

  /** The characteristic holds the descriptors its own range yields. */
  predicate HoldsDiscoveredDescriptors(c: GattCharacteristic, discover: DescriptorDiscovery) {
    MapBuckets(c.descriptors, DescriptorView)
      == Group(DiscoveredDescriptors(c.attribute.valueHandle, c.endHandle, discover), DescriptorUuid)
  }

  /** Every characteristic of a bucket map holds the descriptors its own range yields. */
  predicate AllHoldDiscoveredDescriptors(m: map<Uuid, seq<GattCharacteristic>>, discover: DescriptorDiscovery) {
    forall u, i :: u in m && 0 <= i < |m[u]| ==> HoldsDiscoveredDescriptors(m[u][i], discover)
  }

  lemma AllHoldInsert(m: map<Uuid, seq<GattCharacteristic>>, k: Uuid, c: GattCharacteristic, discover: DescriptorDiscovery)
    requires AllHoldDiscoveredDescriptors(m, discover)
    requires HoldsDiscoveredDescriptors(c, discover)
    ensures AllHoldDiscoveredDescriptors(Insert(m, k, c), discover)
  {
    var r: map<Uuid, seq<GattCharacteristic>> := Insert(m, k, c);
    forall u: Uuid, i: int | u in r && 0 <= i < |r[u]| ensures HoldsDiscoveredDescriptors(r[u][i], discover) {
      if u == k && i == |r[u]| - 1 {
        assert r[u][i] == c;
      } else {
        assert r[u][i] == m[u][i];
      }
    }
  }

  /** The objects the characteristics of a bucket map own, together. */
  ghost function AllParts(m: map<Uuid, seq<GattCharacteristic>>): set<GattAttribute> {
    set c, a | c in Elements(m) && a in Parts(c) :: a
  }

  /**
   * The shape of a characteristic as constructed: each descriptor at one
   * place, and the attribute part not among them.
   */
  ghost predicate Shaped(c: GattCharacteristic) {
    Distinct(c.descriptors) && c.attribute !in Elements(c.descriptors)
  }

  ghost predicate AllShaped(m: map<Uuid, seq<GattCharacteristic>>) {
    forall c :: c in Elements(m) ==> Shaped(c)
  }

  /**
   * Different characteristics own disjoint objects: registering a callback
   * on one characteristic or on one of its descriptors never touches
   * another characteristic.
   */
  ghost predicate Separated(m: map<Uuid, seq<GattCharacteristic>>) {
    forall c, d :: c in Elements(m) && d in Elements(m) && c != d ==> Parts(c) !! Parts(d)
  }

  /**
   * In a dictionary whose objects have no callbacks, each characteristic has
   * none on its attribute part and none on any of its descriptors.
   */
  lemma CharacteristicUnregistered(m: map<Uuid, seq<GattCharacteristic>>, c: GattCharacteristic)
    requires c in Elements(m) && Unregistered(AllParts(m))
    ensures c.attribute.notificationCallbacks == [] && c.attribute.indicationCallbacks == []
    ensures AllUnregistered(c.descriptors)
  {
    assert Parts(c) <= AllParts(m);
  }

  /**
   * Two different characteristics of a separated dictionary share no
   * object: neither their attribute parts, nor a descriptor, nor one's
   * attribute part with the other's descriptors.
   */
  lemma CharacteristicsApart(m: map<Uuid, seq<GattCharacteristic>>, c: GattCharacteristic, d: GattCharacteristic)
    requires Separated(m) && c in Elements(m) && d in Elements(m) && c != d
    ensures c.attribute != d.attribute && c.attribute !in Elements(d.descriptors)
    ensures Elements(c.descriptors) !! Elements(d.descriptors)
  {
  }

  lemma AllPartsInsert(m: map<Uuid, seq<GattCharacteristic>>, k: Uuid, c: GattCharacteristic)
    ensures AllParts(Insert(m, k, c)) == AllParts(m) + Parts(c)
  {
    ElementsInsert(m, k, c);
  }

  lemma ShapedInsert(m: map<Uuid, seq<GattCharacteristic>>, k: Uuid, c: GattCharacteristic)
    requires AllShaped(m) && Shaped(c)
    ensures AllShaped(Insert(m, k, c))
  {
    ElementsInsert(m, k, c);
  }

  lemma SeparatedInsert(m: map<Uuid, seq<GattCharacteristic>>, k: Uuid, c: GattCharacteristic)
    requires Separated(m) && Parts(c) !! AllParts(m)
    ensures Separated(Insert(m, k, c))
  {
    ElementsInsert(m, k, c);
    var r: map<Uuid, seq<GattCharacteristic>> := Insert(m, k, c);
    forall d, e | d in Elements(r) && e in Elements(r) && d != e ensures Parts(d) !! Parts(e) {
      if d in Elements(m) {
        assert Parts(d) <= AllParts(m);
      }
      if e in Elements(m) {
        assert Parts(e) <= AllParts(m);
      }
    }
  }

  /** Appending a characteristic owning objects no other one owns keeps the map's ownership facts. */
  lemma OwnedAppended(m: map<Uuid, seq<GattCharacteristic>>, k: Uuid, c: GattCharacteristic)
    requires Distinct(m) && Separated(m) && AllShaped(m)
    requires Shaped(c) && Parts(c) !! AllParts(m)
    ensures Distinct(Insert(m, k, c)) && Separated(Insert(m, k, c)) && AllShaped(Insert(m, k, c))
    ensures Elements(Insert(m, k, c)) == Elements(m) + {c} && AllParts(Insert(m, k, c)) == AllParts(m) + Parts(c)
  {
    ElementsInsert(m, k, c);
    AllPartsInsert(m, k, c);
    DistinctInsert(m, k, c);
    SeparatedInsert(m, k, c);
    ShapedInsert(m, k, c);
  }

  /** Appending the characteristic built from the `i`-th entry groups one entry more. */
  lemma GroupAppended(m: map<Uuid, seq<GattCharacteristic>>, decls: seq<CharacteristicDecl>, i: int, c: GattCharacteristic, discover: DescriptorDiscovery)
    requires 0 <= i < |decls| && CharacteristicView(c) == decls[i]
    requires MapBuckets(m, CharacteristicView) == Group(decls[..i], DeclUuid)
    requires AllHoldDiscoveredDescriptors(m, discover) && HoldsDiscoveredDescriptors(c, discover)
    ensures MapBuckets(Insert(m, decls[i].uuid, c), CharacteristicView) == Group(decls[..i + 1], DeclUuid)
    ensures AllHoldDiscoveredDescriptors(Insert(m, decls[i].uuid, c), discover)
  {
    AllHoldInsert(m, decls[i].uuid, c, discover);
    GroupStep(m, CharacteristicView, DeclUuid, decls, i, c, decls[i].uuid);
  }

  /**
   * A characteristic for one discovered entry: its objects are new, so they
   * are none of the existing objects `owned`, which keep their callbacks.
   */
  method NewCharacteristic(ghost owned: set<GattAttribute>, raw: RawCharacteristic, endHandle: int, discoverDescs: DescriptorDiscovery)
    returns (c: GattCharacteristic)
    requires Unregistered(owned)
    ensures fresh(c) && fresh(Parts(c)) && Parts(c) !! owned && Unregistered(owned + Parts(c))
    ensures CharacteristicView(c) == CharacteristicDecl(raw.handle, raw.valueHandle, endHandle, raw.uuid, raw.properties)
    ensures HoldsDiscoveredDescriptors(c, discoverDescs) && Shaped(c)
  {
    c := new GattCharacteristic(raw.handle, raw.valueHandle, endHandle, raw.uuid, raw.properties, discoverDescs);
    assert Unregistered(owned);
    UnregisteredUnion(owned, Parts(c));
  }

  /**
   * The body of the loop in `_discover_characteristics`: the characteristic
   * for the `i`-th entry, appended to the list under its UUID, with what
   * the loop keeps about the grown dictionary.
   */
  method AddCharacteristic(m: map<Uuid, seq<GattCharacteristic>>, ghost owned: set<GattAttribute>,
                           ghost decls: seq<CharacteristicDecl>, i: int,
                           raw: RawCharacteristic, endHandle: int, discoverDescs: DescriptorDiscovery)
    returns (r: map<Uuid, seq<GattCharacteristic>>, c: GattCharacteristic)
    requires 0 <= i < |decls| && decls[i] == CharacteristicDecl(raw.handle, raw.valueHandle, endHandle, raw.uuid, raw.properties)
    requires MapBuckets(m, CharacteristicView) == Group(decls[..i], DeclUuid)
    requires AllHoldDiscoveredDescriptors(m, discoverDescs)
    requires Distinct(m) && Separated(m) && AllShaped(m)
    requires AllParts(m) <= owned && Unregistered(owned)
    ensures r == Insert(m, raw.uuid, c)
    ensures fresh(c) && fresh(Parts(c))
    ensures MapBuckets(r, CharacteristicView) == Group(decls[..i + 1], DeclUuid)
    ensures AllHoldDiscoveredDescriptors(r, discoverDescs)
    ensures Distinct(r) && Separated(r) && AllShaped(r)
    ensures Elements(r) == Elements(m) + {c}
    ensures AllParts(r) <= owned + Parts(c) && Unregistered(owned + Parts(c))
  {
    c := NewCharacteristic(owned, raw, endHandle, discoverDescs);
    OwnedAppended(m, raw.uuid, c);
    GroupAppended(m, decls, i, c, discoverDescs);
    r := Insert(m, raw.uuid, c);
  }

  /**
   * `_discover_characteristics`: one characteristic per discovered entry,
   * in discovery order, with its end handle taken from the next entry or
   * from the service's end, appended to the list under its UUID.
   */
  method DiscoverCharacteristics(start: int, end: int, discoverChars: CharacteristicDiscovery, discoverDescs: DescriptorDiscovery)
    returns (characteristics: map<Uuid, seq<GattCharacteristic>>)
    ensures MapBuckets(characteristics, CharacteristicView) == Group(Layout(discoverChars(start, end), end), DeclUuid)
    ensures AllHoldDiscoveredDescriptors(characteristics, discoverDescs)
    ensures Distinct(characteristics) && Separated(characteristics) && AllShaped(characteristics)
    ensures fresh(Elements(characteristics)) && fresh(AllParts(characteristics)) && Unregistered(AllParts(characteristics))
  {
    characteristics := map[];
    // The objects created so far, all without callbacks.
    ghost var owned: set<GattAttribute> := {};
    var rawChars := discoverChars(start, end);
    ghost var decls := Layout(rawChars, end);
    for i := 0 to |rawChars|
      invariant MapBuckets(characteristics, CharacteristicView) == Group(decls[..i], DeclUuid)
      invariant AllHoldDiscoveredDescriptors(characteristics, discoverDescs)
      invariant Distinct(characteristics) && Separated(characteristics) && AllShaped(characteristics)
      invariant fresh(Elements(characteristics))
      invariant AllParts(characteristics) <= owned && fresh(owned) && Unregistered(owned)
    {
      var raw := rawChars[i];
      var endHandle;
      if i == |rawChars| - 1 {
        endHandle := end - 1;
      } else {
        endHandle := rawChars[i + 1].handle - 1;
      }
      ghost var before := characteristics;
      var characteristic;
      characteristics, characteristic := AddCharacteristic(characteristics, owned, decls, i, raw, endHandle, discoverDescs);
      assert fresh(Elements(before) + {characteristic});
      assert fresh(owned + Parts(characteristic));
      owned := owned + Parts(characteristic);
    }
    assert decls[..|rawChars|] == decls;
    UnregisteredSubset(AllParts(characteristics), owned);
  }

  /**
   * What the dictionary of lists `_discover_characteristics` builds says
   * about the discovered entries: a key exists exactly when some entry
   * carries that UUID, no list is empty, each list is the entries with
   * that UUID in discovery order, and the list sizes add up to the number
   * of entries, so each entry lands in exactly one list.
   */
  lemma CharacteristicBuckets(raws: seq<RawCharacteristic>, end: int)
    ensures Group(Layout(raws, end), DeclUuid).Keys == set i | 0 <= i < |raws| :: raws[i].uuid
    ensures forall u :: u in Group(Layout(raws, end), DeclUuid) ==> |Group(Layout(raws, end), DeclUuid)[u]| > 0
    ensures forall u :: u in Group(Layout(raws, end), DeclUuid) ==>
      Group(Layout(raws, end), DeclUuid)[u] == Select(Layout(raws, end), DeclUuid, u)
    ensures TotalSize(Group(Layout(raws, end), DeclUuid)) == |raws|
  {
    var decls := Layout(raws, end);
    GroupKeys(decls, DeclUuid);
    var s, t := set i | 0 <= i < |decls| :: DeclUuid(decls[i]), set i | 0 <= i < |raws| :: raws[i].uuid;
    assert s == t by {
      forall u | u in s ensures u in t {
        var i :| 0 <= i < |decls| && DeclUuid(decls[i]) == u;
        assert raws[i].uuid == u;
      }
      forall u | u in t ensures u in s {
        var i :| 0 <= i < |raws| && raws[i].uuid == u;
        assert DeclUuid(decls[i]) == u;
      }
    }
    GroupIsSelect(decls, DeclUuid);
    GroupTotalSize(decls, DeclUuid);
  }

  /** A service whose discovery yields nothing has no characteristics. */
  lemma NoCharacteristics(end: int)
    ensures Group(Layout([], end), DeclUuid) == map[]
  {
  }

  class GattService {
    const uuid: Uuid
    const start: int
    const end: int
    const characteristics: map<Uuid, seq<GattCharacteristic>>

    constructor (uuid: Uuid, start: int, end: int, discoverChars: CharacteristicDiscovery, discoverDescs: DescriptorDiscovery)
      ensures this.uuid == uuid && this.start == start && this.end == end
      ensures MapBuckets(characteristics, CharacteristicView) == Group(Layout(discoverChars(start, end), end), DeclUuid)
      ensures AllHoldDiscoveredDescriptors(characteristics, discoverDescs)
      ensures Distinct(characteristics) && Separated(characteristics) && AllShaped(characteristics)
      ensures fresh(Elements(characteristics)) && fresh(AllParts(characteristics)) && Unregistered(AllParts(characteristics))
    {
      this.uuid := uuid;
      this.start := start;
      this.end := end;
      var found := DiscoverCharacteristics(start, end, discoverChars, discoverDescs);
      characteristics := found;
    }
  }
}
