/**
 * `bleep/requester.py`: the requester receives ATT Handle Value
 * Notifications from the native library, strips their three-byte header
 * (the opcode and the little-endian attribute handle, Bluetooth Core
 * Specification Vol 3, Part F, section 3.4.7.1), hands `(handle, payload)`
 * to the installed callback, and sets the installed event.
 */
module Requesters {
  import opened Wrappers

  /** The flag of a `threading.Event`; blocking and waking are not modelled. */
  class Event {
    var isSet: bool

    constructor ()
      ensures !isSet
    {
      isSet := false;
    }

    method Set()
      modifies this
      ensures isSet
    {
      isSet := true;
    }

    method Clear()
      modifies this
      ensures !isSet
    {
      isSet := false;
    }
  }

  /** The opcode of an ATT Handle Value Notification. */
  const HANDLE_VALUE_NOTIFICATION: byte := 0x1B

  /** The notification PDU a server sends for `handle` and `value`. */
  function NotificationPdu(handle: int, value: seq<byte>): (pdu: seq<byte>)
    requires 0 <= handle < 0x1_0000
    ensures |pdu| == 3 + |value|
    ensures pdu[0] == HANDLE_VALUE_NOTIFICATION
    ensures (pdu[1] as int) + 0x100 * (pdu[2] as int) == handle
    ensures pdu[3..] == value
  {
    [HANDLE_VALUE_NOTIFICATION, handle % 0x100, handle / 0x100] + value
  }

  /** `data[3:]`: the PDU without its header, empty when there is no more than the header. */
  function StripHeader(pdu: seq<byte>): (payload: seq<byte>)
    ensures |payload| == if |pdu| <= 3 then 0 else |pdu| - 3
    ensures forall i :: 0 <= i < |payload| ==> payload[i] == pdu[i + 3]
  {
    if |pdu| <= 3 then [] else pdu[3..]
  }

  /** Stripping recovers exactly the value a notification carries. */
  lemma StripNotification(handle: int, value: seq<byte>)
    requires 0 <= handle < 0x1_0000
    ensures StripHeader(NotificationPdu(handle, value)) == value
  {
  }

  /** Any PDU longer than a header is a header followed by the stripped payload. */
  lemma StripSplits(pdu: seq<byte>)
    requires |pdu| >= 3
    ensures pdu == pdu[..3] + StripHeader(pdu)
  {
  }

  /**
   * What the requester's `notification_callback` is: the owning device's
   * `_on_notification`, as `BLEDevice` installs it, or another callable.
   */
  datatype Handler = DeviceHandler | External(callback: Callback)

  /** One call `notification_callback(handle, data)`. */
  datatype NotificationCall = NotificationCall(handler: Handler, handle: int, data: seq<byte>)

  /** The exception `None.set()` raises when no event was installed. */
  datatype AttributeError = AttributeError

  class Requester {
    var notificationCallback: Option<Handler>
    var notificationEvent: Event?
    /** What the native `is_connected()` answers. */
    var connected: bool

    /**
     * Neither a callback nor an event is installed at first, and the
     * requester is created without connecting.
     */
    constructor ()
      ensures notificationCallback == None && notificationEvent == null
      ensures !connected
    {
      notificationCallback := None;
      notificationEvent := null;
      connected := false;
    }

    /** The native `connect`, seen only through the connection state it leaves. */
    method Connect()
      modifies this
      ensures connected
      ensures notificationCallback == old(notificationCallback) && notificationEvent == old(notificationEvent)
    {
      connected := true;
    }

    /** `set_notification_event`. */
    method SetNotificationEvent(event: Event)
      modifies this
      ensures notificationEvent == event
      ensures notificationCallback == old(notificationCallback) && connected == old(connected)
    {
      notificationEvent := event;
    }

    /**
     * The first half of `on_notification`: the call of the callback, when
     * one is installed, with the handle and the stripped payload.
     */
    method Dispatch(handle: int, pdu: seq<byte>) returns (call: Option<NotificationCall>)
      ensures notificationCallback.None? ==> call == None
      ensures notificationCallback.Some? ==> call == Some(NotificationCall(notificationCallback.value, handle, StripHeader(pdu)))
    {
      var data := StripHeader(pdu);
      call := None;
      if notificationCallback.Some? {
        call := Some(NotificationCall(notificationCallback.value, handle, data));
      }
    }

    /**
     * The second half: `notification_event.set()`, which raises an
     * AttributeError when no event was installed.
     */
    method SignalEvent() returns (error: Option<AttributeError>)
      modifies notificationEvent
      ensures notificationEvent != null ==> error == None && notificationEvent.isSet
      ensures notificationEvent == null ==> error == Some(AttributeError)
    {
      if notificationEvent == null {
        error := Some(AttributeError);
      } else {
        notificationEvent.Set();
        error := None;
      }
    }

    /**
     * `on_notification`: the callback, when installed, is called once with
     * the handle and the stripped payload; then the event is set. Without
     * an event the call still happens and an AttributeError follows it.
     */
    method OnNotification(handle: int, pdu: seq<byte>) returns (call: Option<NotificationCall>, error: Option<AttributeError>)
      modifies notificationEvent
      ensures notificationCallback.None? ==> call == None
      ensures notificationCallback.Some? ==> call == Some(NotificationCall(notificationCallback.value, handle, StripHeader(pdu)))
      ensures notificationEvent != null ==> error == None && notificationEvent.isSet
      ensures notificationEvent == null ==> error == Some(AttributeError)
    {
      call := Dispatch(handle, pdu);
      error := SignalEvent();
    }
  }
}
