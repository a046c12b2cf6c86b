/**
 * `bleep/device.py`: a device turns the values a client writes into
 * bytes before handing them to the native write calls, keeps only the
 * latest notification it received, and discovers its services once, on
 * the first `connect`.
 */
module Devices {
  import opened Wrappers
  import opened Util
  import opened Discovery
  import opened BleCharacteristics
  import opened BleServices
  import opened Requesters

  // ---------------------------------------------------------------------
  // Writes.

  /** The shapes of value `write_handle` tells apart, by `isinstance`. */
  datatype WriteData =
    | IntData(n: int)
    | ListData(xs: seq<int>)
    | BytesData(b: seq<byte>)
    | OtherData

  /** The exceptions a write raises before anything is sent. */
  datatype WriteError = NotImplementedError(message: string) | ValueError(message: string)

  /** `bytes(xs)` on a list of integers: each must be a byte value. */
  function BytesOf(xs: seq<int>): (r: Result<seq<byte>, WriteError>)
    ensures r.Ok? <==> forall i :: 0 <= i < |xs| ==> 0 <= xs[i] < 0x100
    ensures r.Ok? ==> r.value == xs
    ensures r.Err? ==> r.error == ValueError("bytes must be in range(0, 256)")
  {
    if forall i :: 0 <= i < |xs| ==> 0 <= xs[i] < 0x100 then
      Ok(seq(|xs|, i requires 0 <= i < |xs| && 0 <= xs[i] < 0x100 => xs[i] as byte))
    else
      Err(ValueError("bytes must be in range(0, 256)"))
  }

  /**
   * The bytes `write_handle` and `write_handle_without_response` send: an
   * int as the one-byte sequence `[data]`, a list as the bytes of its
   * elements in order, bytes unchanged; any other value raises
   * NotImplementedError("Unsupported data type").
   */
  function ToBytes(data: WriteData): (r: Result<seq<byte>, WriteError>)
    ensures data.OtherData? <==> r == Err(NotImplementedError("Unsupported data type"))
    ensures data.BytesData? ==> r == Ok(data.b)
    ensures data.ListData? ==> (r.Ok? <==> forall i :: 0 <= i < |data.xs| ==> 0 <= data.xs[i] < 0x100)
    ensures data.ListData? && r.Ok? ==> r.value == data.xs
    ensures data.IntData? ==> (r.Ok? <==> 0 <= data.n < 0x100)
    ensures data.IntData? && r.Ok? ==> r.value == [data.n]
  {
    match data
    case IntData(n) => assert [n][0] == n; BytesOf([n])
    case ListData(xs) => BytesOf(xs)
    case BytesData(b) => Ok(b)
    case OtherData => Err(NotImplementedError("Unsupported data type"))
  }

  /** An int is written exactly as the one-element list holding it, errors included. */
  lemma IntIsSingletonList(n: int)
    ensures ToBytes(IntData(n)) == ToBytes(ListData([n]))
  {
  }

  /** A list of byte values and the bytes with those values write the same. */
  lemma ListMatchesBytes(b: seq<byte>)
    ensures ToBytes(ListData(b)) == ToBytes(BytesData(b)) == Ok(b)
  {
  }

  /** The ATT request the native write issues for a handle and payload. */
  datatype AttWrite = WriteRequest(handle: int, value: seq<byte>) | WriteCommand(handle: int, value: seq<byte>)

  /** `write_handle`: a Write Request with the converted bytes, or the conversion's error and no write. */
  function WriteHandle(handle: int, data: WriteData): (r: Result<AttWrite, WriteError>)
    ensures r.Ok? <==> ToBytes(data).Ok?
    ensures r.Ok? ==> r.value.WriteRequest? && r.value.handle == handle && r.value.value == ToBytes(data).value
    ensures r.Err? ==> r.error == ToBytes(data).error
  {
    match ToBytes(data)
    case Ok(bytes) => Ok(WriteRequest(handle, bytes))
    case Err(e) => Err(e)
  }

  /** `write_handle_without_response`: the same conversion, then a Write Command. */
  function WriteHandleWithoutResponse(handle: int, data: WriteData): (r: Result<AttWrite, WriteError>)
    ensures r.Ok? <==> ToBytes(data).Ok?
    ensures r.Ok? ==> r.value.WriteCommand? && r.value.handle == handle && r.value.value == ToBytes(data).value
    ensures r.Err? ==> r.error == ToBytes(data).error
  {
    match ToBytes(data)
    case Ok(bytes) => Ok(WriteCommand(handle, bytes))
    case Err(e) => Err(e)
  }

  /** The two writes accept and refuse the same values and send the same bytes to the same handle. */
  lemma WritesAgree(handle: int, data: WriteData)
    ensures WriteHandle(handle, data).Ok? <==> WriteHandleWithoutResponse(handle, data).Ok?
    ensures WriteHandle(handle, data).Ok? ==>
      && WriteHandle(handle, data).value.handle == WriteHandleWithoutResponse(handle, data).value.handle
      && WriteHandle(handle, data).value.value == WriteHandleWithoutResponse(handle, data).value.value
    ensures WriteHandle(handle, data).Err? ==> WriteHandle(handle, data) == WriteHandleWithoutResponse(handle, data)
  {
  }

  // ---------------------------------------------------------------------
  // The device.

  /** One entry of `discover_primary()`. */
  datatype PrimaryService = PrimaryService(start: int, end: int, uuid: Uuid)

  /** The older service each primary entry gives, with the device's answers to discovery. */
  function ServiceFor(p: PrimaryService, discoverChars: CharacteristicDiscovery, discoverDescs: DescriptorDiscovery): (s: BleService)
    ensures s.uuid == p.uuid && s.start == p.start && s.end == p.end
  {
    BleService(p.uuid, p.start, p.end, CharacteristicList(Layout(discoverChars(p.start, p.end), p.end), discoverDescs))
  }

  /** One service per primary entry, in order; services with the same UUID are all kept. */
  function ServiceList(primary: seq<PrimaryService>, discoverChars: CharacteristicDiscovery, discoverDescs: DescriptorDiscovery): (ss: seq<BleService>)
    ensures |ss| == |primary|
    ensures forall i :: 0 <= i < |ss| ==>
      ss[i].uuid == primary[i].uuid && ss[i].start == primary[i].start && ss[i].end == primary[i].end
  {
    seq(|primary|, i requires 0 <= i < |primary| => ServiceFor(primary[i], discoverChars, discoverDescs))
  }

  /** A call of the client's `notify_callback(handle, data)`. */
  datatype ClientCall = ClientCall(callback: Callback, handle: int, data: seq<byte>)

  class BleDevice {
    const name: string
    const address: string
    const flags: int
    const appearance: int
    const serviceUuids: seq<string>
    var services: seq<BleService>
    const requester: Requester
    var notifyCallback: Option<Callback>
    const notificationEvent: Event
    var notificationHandle: Option<int>
    var notificationData: Option<seq<byte>>

    /** The wiring the constructor sets up: the requester signals this device's event and calls this device. */
    ghost predicate Valid()
      reads this, requester
    {
      && requester.notificationEvent == notificationEvent
      && requester.notificationCallback == Some(DeviceHandler)
    }

    constructor (name: string, address: string, serviceUuids: seq<string>, flags: int, appearance: int)
      ensures Valid()
      ensures this.name == name && this.address == address && this.serviceUuids == serviceUuids
      ensures this.flags == flags && this.appearance == appearance
      ensures services == [] && notifyCallback == None
      ensures notificationHandle == None && notificationData == None
      ensures !notificationEvent.isSet && !requester.connected
      ensures fresh(requester) && fresh(notificationEvent)
    {
      this.name := name;
      this.flags := flags;
      this.address := address;
      services := [];
      this.serviceUuids := serviceUuids;
      this.appearance := appearance;
      var r := new Requester();
      requester := r;
      notifyCallback := None;
      var e := new Event();
      notificationEvent := e;
      new;
      requester.SetNotificationEvent(notificationEvent);
      requester.notificationCallback := Some(DeviceHandler);
      notificationHandle := None;
      notificationData := None;
    }

    /** `notify`: replaces the client callback; `None` switches it off again. */
    method Notify(callback: Option<Callback>)
      modifies this
      ensures notifyCallback == callback
      ensures services == old(services)
      ensures notificationHandle == old(notificationHandle) && notificationData == old(notificationData)
    {
      notifyCallback := callback;
    }

    /**
     * `_on_notification`: the latest handle and data overwrite whatever
     * was stored, consumed or not; the event is set; then the client
     * callback, when there is one, is called with them.
     */
    method OnNotification(handle: int, data: seq<byte>) returns (call: Option<ClientCall>)
      modifies this, notificationEvent
      ensures notificationData == Some(data) && notificationHandle == Some(handle)
      ensures notificationEvent.isSet
      ensures notifyCallback == old(notifyCallback) && services == old(services)
      ensures notifyCallback.None? ==> call == None
      ensures notifyCallback.Some? ==> call == Some(ClientCall(notifyCallback.value, handle, data))
    {
      notificationData := Some(data);
      notificationHandle := Some(handle);
      notificationEvent.Set();
      call := None;
      if notifyCallback.Some? {
        call := Some(ClientCall(notifyCallback.value, handle, data));
      }
    }

    /**
     * `wait_notification`, once the event is set (the source blocks until
     * then): the data of the latest notification, and the event cleared.
     * The handle argument is not used.
     */
    method WaitNotification(handle: int) returns (data: Option<seq<byte>>)
      requires notificationEvent.isSet
      modifies notificationEvent
      ensures data == notificationData
      ensures !notificationEvent.isSet
    {
      notificationEvent.Clear();
      data := notificationData;
    }

    /**
     * A notification PDU arriving through the wired requester: the device
     * stores its handle and stripped payload, the client callback sees
     * them, and the event ends up set without an error.
     */
    method Deliver(handle: int, pdu: seq<byte>) returns (call: Option<ClientCall>, error: Option<AttributeError>)
      requires Valid()
      modifies this, notificationEvent
      ensures Valid()
      ensures notificationData == Some(StripHeader(pdu)) && notificationHandle == Some(handle)
      ensures notificationEvent.isSet && error == None
      ensures notifyCallback == old(notifyCallback) && services == old(services)
      ensures notifyCallback.None? ==> call == None
      ensures notifyCallback.Some? ==> call == Some(ClientCall(notifyCallback.value, handle, StripHeader(pdu)))
    {
      var dispatched := requester.Dispatch(handle, pdu);
      call := OnNotification(dispatched.value.handle, dispatched.value.data);
      error := requester.SignalEvent();
    }

    /** `connected`: what the native `is_connected()` answers. */
    predicate Connected()
      reads this, requester
    {
      requester.connected
    }

    /**
     * `connect`: nothing when already connected; otherwise connects and
     * appends one older-API service per primary service, in the order
     * `discover_primary` gives them.
     */
    method Connect(primary: seq<PrimaryService>, discoverChars: CharacteristicDiscovery, discoverDescs: DescriptorDiscovery)
      requires Valid()
      modifies this, requester
      ensures Valid() && Connected()
      ensures old(Connected()) ==> services == old(services)
      ensures !old(Connected()) ==> services == old(services) + ServiceList(primary, discoverChars, discoverDescs)
      ensures notifyCallback == old(notifyCallback)
      ensures notificationHandle == old(notificationHandle) && notificationData == old(notificationData)
    {
      if Connected() {
        return;
      }
      requester.Connect();
      ghost var before := services;
      for i := 0 to |primary|
        invariant services == before + ServiceList(primary[..i], discoverChars, discoverDescs)
        invariant Valid() && Connected()
        invariant notifyCallback == old(notifyCallback)
        invariant notificationHandle == old(notificationHandle) && notificationData == old(notificationData)
      {
        var service := primary[i];
        var serv := NewService(service.uuid, service.start, service.end, discoverChars, discoverDescs);
        assert ServiceList(primary[..i + 1], discoverChars, discoverDescs)
            == ServiceList(primary[..i], discoverChars, discoverDescs) + [serv];
        services := services + [serv];
      }
      assert primary[..|primary|] == primary;
    }
  }
}
