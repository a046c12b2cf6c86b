/**
 * What both API generations do with the answers of the native GATT
 * discovery calls, which are taken here as given inputs: each discovered
 * characteristic is given an end handle (the next declaration's handle
 * minus one, or the service's end handle minus one for the last), and
 * descriptor discovery is asked for only when the characteristic's value
 * handle leaves room for descriptors before that end handle.
 */
module Discovery {
  import opened Wrappers
  import opened Util

  /** One entry of `discover_characteristics(start, end)`. */
  datatype RawCharacteristic = RawCharacteristic(handle: int, valueHandle: int, uuid: Uuid, properties: int)

  /** One entry of `discover_descriptors(start, end)`. */
  datatype RawDescriptor = RawDescriptor(handle: int, uuid: Uuid)

  /**
   * What a descriptor discovery delivers before it stops: the entries it
   * yielded, and whether it then raised a RuntimeError (pygattlib raises
   * one when the device answers with an error, which is also how "no
   * descriptor here" is reported).
   */
  datatype DescriptorDiscoveryOutcome = DescriptorDiscoveryOutcome(entries: seq<RawDescriptor>, raisedRuntimeError: bool)

  /** The device's answer to `discover_descriptors` over each handle range. */
  type DescriptorDiscovery = (int, int) -> DescriptorDiscoveryOutcome

  /** The device's answer to `discover_characteristics` over each handle range. */
  type CharacteristicDiscovery = (int, int) -> seq<RawCharacteristic>

  /** A characteristic declaration together with the end of its handle range. */
  datatype CharacteristicDecl = CharacteristicDecl(handle: int, valueHandle: int, endHandle: int, uuid: Uuid, properties: int)

  function DeclUuid(d: CharacteristicDecl): (u: Uuid) { d.uuid }

  function DescriptorUuid(d: RawDescriptor): (u: Uuid) { d.uuid }

  /** The end handle the discovery loops compute for entry `i`. */
  function EndHandle(raws: seq<RawCharacteristic>, i: int, serviceEnd: int): (e: int)
    requires 0 <= i < |raws|
  {
    if i == |raws| - 1 then serviceEnd - 1 else raws[i + 1].handle - 1
  }

  /** Entry `i` with its end handle: the values each discovered characteristic is built from. */
  function Layout(raws: seq<RawCharacteristic>, serviceEnd: int): (decls: seq<CharacteristicDecl>)
    ensures |decls| == |raws|
  {
    seq(|raws|, i requires 0 <= i < |raws| =>
      CharacteristicDecl(raws[i].handle, raws[i].valueHandle, EndHandle(raws, i, serviceEnd), raws[i].uuid, raws[i].properties))
  }

  /**
   * The layout copies handle, value handle, uuid and properties, ends
   * each range just before the next declaration, and ends the last one
   * just before the service's end handle.
   */
  lemma LayoutHandles(raws: seq<RawCharacteristic>, serviceEnd: int)
    ensures forall i :: 0 <= i < |raws| ==>
      && Layout(raws, serviceEnd)[i].handle == raws[i].handle
      && Layout(raws, serviceEnd)[i].valueHandle == raws[i].valueHandle
      && Layout(raws, serviceEnd)[i].uuid == raws[i].uuid
      && Layout(raws, serviceEnd)[i].properties == raws[i].properties
    ensures forall i :: 0 <= i < |raws| - 1 ==> Layout(raws, serviceEnd)[i].endHandle == raws[i + 1].handle - 1
    ensures |raws| > 0 ==> Layout(raws, serviceEnd)[|raws| - 1].endHandle == serviceEnd - 1
  {
  }

  /**
   * What the GATT server's answer to `discover_characteristics(start, end)`
   * looks like: declarations inside the range, each followed by its value
   * handle, in increasing handle order.
   */
  ghost predicate WellFormed(raws: seq<RawCharacteristic>, start: int, serviceEnd: int) {
    && (forall i :: 0 <= i < |raws| ==> start <= raws[i].handle < raws[i].valueHandle <= serviceEnd)
    && (forall i :: 0 <= i < |raws| - 1 ==> raws[i].valueHandle < raws[i + 1].handle)
  }

  /**
   * On a well-formed answer the characteristics' ranges are non-empty,
   * consecutive and ordered: together they tile the handles from the first
   * declaration up to the service's end handle minus one.
   */
  lemma {:induction false} LayoutTiles(raws: seq<RawCharacteristic>, start: int, serviceEnd: int)
    requires WellFormed(raws, start, serviceEnd)
    ensures forall i :: 0 <= i < |raws| ==> Layout(raws, serviceEnd)[i].handle <= Layout(raws, serviceEnd)[i].endHandle
    ensures forall i :: 0 <= i < |raws| - 1 ==> Layout(raws, serviceEnd)[i].endHandle + 1 == Layout(raws, serviceEnd)[i + 1].handle
    ensures forall i :: 0 <= i < |raws| ==> Layout(raws, serviceEnd)[i].endHandle <= serviceEnd - 1
  {
  }

  /** Handle `h` lies in the range of characteristic `i`. */
  ghost predicate InRange(d: CharacteristicDecl, h: int) {
    d.handle <= h <= d.endHandle
  }

  /**
   * Every handle from the first declaration to the service's end handle
   * minus one is in the range of exactly one characteristic.
   */
  lemma {:induction false} OwnerOf(raws: seq<RawCharacteristic>, start: int, serviceEnd: int, h: int) returns (i: int)
    requires WellFormed(raws, start, serviceEnd)
    requires |raws| > 0 && raws[0].handle <= h <= serviceEnd - 1
    ensures 0 <= i < |raws| && InRange(Layout(raws, serviceEnd)[i], h)
    ensures forall j :: 0 <= j < |raws| && InRange(Layout(raws, serviceEnd)[j], h) ==> j == i
  {
    var d := Layout(raws, serviceEnd);
    LayoutTiles(raws, start, serviceEnd);
    i := 0;
    while i < |raws| - 1 && d[i].endHandle < h
      invariant 0 <= i < |raws|
      invariant d[i].handle <= h
    {
      i := i + 1;
    }
    forall j | 0 <= j < |raws| && InRange(d[j], h) ensures j == i {
      if j < i {
        Increasing(d, j, i - 1);
      } else if i < j {
        Increasing(d, i, j - 1);
      }
    }
  }

  /** Ranges of a tiling layout are ordered. */
  lemma Increasing(d: seq<CharacteristicDecl>, i: int, j: int)
    requires 0 <= i <= j < |d| - 1
    requires forall k :: 0 <= k < |d| ==> d[k].handle <= d[k].endHandle
    requires forall k :: 0 <= k < |d| - 1 ==> d[k].endHandle + 1 == d[k + 1].handle
    ensures d[i].endHandle < d[j + 1].handle
    decreases j - i
  {
    if i < j {
      Increasing(d, i + 1, j);
    }
  }

  /** The service's own end handle is in no characteristic's range. */
  lemma ServiceEndUnowned(raws: seq<RawCharacteristic>, start: int, serviceEnd: int)
    requires WellFormed(raws, start, serviceEnd)
    ensures forall i :: 0 <= i < |raws| ==> !InRange(Layout(raws, serviceEnd)[i], serviceEnd)
  {
    LayoutTiles(raws, start, serviceEnd);
  }

  // ---------------------------------------------------------------------
  // Descriptor discovery.

  /**
   * The handle range descriptor discovery is asked for, or None when the
   * source returns early because `value_handle + 1 > end_handle`.
   */
  function DescriptorRange(valueHandle: int, endHandle: int): (r: Option<(int, int)>)
    ensures r.Some? <==> valueHandle + 1 <= endHandle
    ensures r.Some? ==> r.value == (valueHandle + 1, endHandle)
  {
    if valueHandle + 1 > endHandle then None else Some((valueHandle + 1, endHandle))
  }

  /**
   * The descriptor entries a characteristic ends up with: none when no
   * discovery is issued, otherwise those yielded by the discovery of
   * exactly `value_handle + 1 .. end_handle`, up to any RuntimeError,
   * which is swallowed.
   */
  function DiscoveredDescriptors(valueHandle: int, endHandle: int, discover: DescriptorDiscovery): (r: seq<RawDescriptor>)
    ensures valueHandle + 1 > endHandle ==> r == []
    ensures valueHandle + 1 <= endHandle ==> r == discover(valueHandle + 1, endHandle).entries
  {
    match DescriptorRange(valueHandle, endHandle)
    case None => []
    case Some((first, last)) => discover(first, last).entries
  }

  /** The result depends on the device's answer for that one range only, and never on the error. */
  lemma DiscoveredDescriptorsLocal(valueHandle: int, endHandle: int, d1: DescriptorDiscovery, d2: DescriptorDiscovery)
    requires valueHandle + 1 <= endHandle ==>
      d1(valueHandle + 1, endHandle).entries == d2(valueHandle + 1, endHandle).entries
    ensures DiscoveredDescriptors(valueHandle, endHandle, d1) == DiscoveredDescriptors(valueHandle, endHandle, d2)
  {
  }

  /**
   * On a well-formed answer the descriptor searches of different
   * characteristics never overlap, never cover a declaration or a value
   * handle, and stay below the service's end handle, which is therefore
   * never searched.
   */
  lemma {:induction false} DescriptorRangesDisjoint(raws: seq<RawCharacteristic>, start: int, serviceEnd: int, i: int, j: int)
    requires WellFormed(raws, start, serviceEnd)
    requires 0 <= i < j < |raws|
    requires DescriptorRange(Layout(raws, serviceEnd)[i].valueHandle, Layout(raws, serviceEnd)[i].endHandle).Some?
    requires DescriptorRange(Layout(raws, serviceEnd)[j].valueHandle, Layout(raws, serviceEnd)[j].endHandle).Some?
    ensures DescriptorRange(Layout(raws, serviceEnd)[i].valueHandle, Layout(raws, serviceEnd)[i].endHandle).value.1
          < raws[j].handle
          < raws[j].valueHandle
          < DescriptorRange(Layout(raws, serviceEnd)[j].valueHandle, Layout(raws, serviceEnd)[j].endHandle).value.0
    ensures DescriptorRange(Layout(raws, serviceEnd)[j].valueHandle, Layout(raws, serviceEnd)[j].endHandle).value.1 < serviceEnd
  {
    var d := Layout(raws, serviceEnd);
    LayoutTiles(raws, start, serviceEnd);
    if i < j - 1 {
      Increasing(d, i, j - 1);
    }
  }
}
