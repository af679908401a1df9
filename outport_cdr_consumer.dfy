/**
 * The CORBA-CDR pull consumer: `get` asks the remote OutPort for a sample,
 * stores a delivered sample in the local buffer (firing the receive-side
 * notifications), and translates a refusal into a data-port status with a
 * sender-side notification. `subscribeInterface` looks the remote's object
 * reference up in the connector properties.
 */
module OutPortCorbaCdrConsumer {
  import opened Common
  import opened DataPortStatusModel
  import PT = PortTypes

  type ByteData = PT.ByteData
  type Notice = PT.Notice

  /** A data-port status with the notifications fired to produce it, in order. */
  datatype Converted = Converted(status: DataPortStatus, notices: seq<Notice>)

  /** The result of the remote `get` call: it throws, or answers with a status and a payload. */
  datatype RemoteReply =
    | Threw
    | Answered(status: PT.PortStatus, payload: seq<PT.Byte>)

  function Event(k: PT.DataListenerType, d: ByteData): Notice
  {
    PT.DataNotice(k, d)
  }

  /**
   * `convertReturn`: the remote's port status is carried over to the
   * data-port status of the same name; every failure except BUFFER_FULL
   * fires exactly one sender-side notification (which carries no sample).
   */
  function ConvertReturn(st: PT.PortStatus): (r: Converted)
    ensures r.status == PORT_OK <==> st == PT.PORT_OK
    ensures r.status == PORT_ERROR <==> st == PT.PORT_ERROR
    ensures r.status == BUFFER_FULL <==> st == PT.BUFFER_FULL
    ensures r.status == BUFFER_EMPTY <==> st == PT.BUFFER_EMPTY
    ensures r.status == BUFFER_TIMEOUT <==> st == PT.BUFFER_TIMEOUT
    ensures r.status == UNKNOWN_ERROR <==> st == PT.UNKNOWN_ERROR
    ensures st == PT.PORT_ERROR || st == PT.UNKNOWN_ERROR ==> r.notices == [PT.PlainNotice(PT.ON_SENDER_ERROR)]
    ensures st == PT.BUFFER_EMPTY ==> r.notices == [PT.PlainNotice(PT.ON_SENDER_EMPTY)]
    ensures st == PT.BUFFER_TIMEOUT ==> r.notices == [PT.PlainNotice(PT.ON_SENDER_TIMEOUT)]
    ensures r.notices == [] <==> st == PT.PORT_OK || st == PT.BUFFER_FULL
  {
    match st
    case PORT_OK => Converted(PORT_OK, [])
    case PORT_ERROR => Converted(PORT_ERROR, [PT.PlainNotice(PT.ON_SENDER_ERROR)])
    case BUFFER_FULL => Converted(BUFFER_FULL, [])
    case BUFFER_EMPTY => Converted(BUFFER_EMPTY, [PT.PlainNotice(PT.ON_SENDER_EMPTY)])
    case BUFFER_TIMEOUT => Converted(BUFFER_TIMEOUT, [PT.PlainNotice(PT.ON_SENDER_TIMEOUT)])
    case UNKNOWN_ERROR => Converted(UNKNOWN_ERROR, [PT.PlainNotice(PT.ON_SENDER_ERROR)])
  }

  /** The data-port status of the same name as an IDL port status. */
  function SameName(st: PT.PortStatus): DataPortStatus
  {
    match st
    case PORT_OK => PORT_OK
    case PORT_ERROR => PORT_ERROR
    case BUFFER_FULL => BUFFER_FULL
    case BUFFER_EMPTY => BUFFER_EMPTY
    case BUFFER_TIMEOUT => BUFFER_TIMEOUT
    case UNKNOWN_ERROR => UNKNOWN_ERROR
  }

  /**
   * The translation is injective (it names the remote's status), it never
   * invents CONNECTION_LOST (that one comes only from an exception), and
   * it fires at most one notification, never a data notification.
   */
  lemma ConvertReturnFaithful(a: PT.PortStatus, b: PT.PortStatus)
    ensures ConvertReturn(a).status == SameName(a)
    ensures ConvertReturn(a).status == ConvertReturn(b).status ==> a == b
    ensures ConvertReturn(a).status != CONNECTION_LOST
    ensures |ConvertReturn(a).notices| <= 1
    ensures forall i :: 0 <= i < |ConvertReturn(a).notices| ==> ConvertReturn(a).notices[i].PlainNotice?
  {
  }

  /** The key under which the remote OutPort's object reference is published. */
  const OutPortIorKey: string := "dataport.corba_cdr.outport_ior"

  /** The value of a name/value pair: a string, or anything else. */
  datatype AnyValue = AnyString(s: string) | AnyOther

  datatype NameValue = NameValue(name: string, value: AnyValue)

  /** `NVUtil::find_index`: the position of the first pair with the given name. */
  function FindIndex(props: seq<NameValue>, name: string): (r: Option<nat>)
    ensures r.Some? ==> r.value < |props| && props[r.value].name == name
                        && forall j :: 0 <= j < r.value ==> props[j].name != name
    ensures r.None? <==> forall j :: 0 <= j < |props| ==> props[j].name != name
  {
    if props == [] then None
    else if props[0].name == name then Some(0)
    else match FindIndex(props[1..], name)
         case None => None
         case Some(i) => Some(i + 1)
  }

  /**
   * The consumer. `objref` is the object reference it talks to (None: nil);
   * whether an IOR string resolves to a usable reference is up to the ORB,
   * so it is the oracle `resolves`.
   */
  class Consumer {
    var buffer: PT.CdrBuffer?
    var listeners: PT.ConnectorListeners?
    var profile: PT.ConnectorInfo
    var objref: Option<string>

    constructor (profile: PT.ConnectorInfo)
      ensures buffer == null && listeners == null && objref == None && this.profile == profile
    {
      buffer := null;
      listeners := null;
      this.profile := profile;
      objref := None;
    }

    method SetBuffer(b: PT.CdrBuffer?)
      modifies this`buffer
      ensures buffer == b
    {
      buffer := b;
    }

    method SetListener(info: PT.ConnectorInfo, ls: PT.ConnectorListeners?)
      modifies this`listeners, this`profile
      ensures listeners == ls && profile == info
    {
      listeners := ls;
      profile := info;
    }

    /**
     * `get(data)`, with the remote call's result given as `remote`.
     * A remote PORT_OK fills `data` with the payload, fires ON_RECEIVED and
     * ON_BUFFER_WRITE, then ON_BUFFER_FULL and ON_RECEIVER_FULL only if the
     * buffer was full, and stores the sample with the read index moved on
     * by one. Any other answer leaves buffer and data alone and goes through
     * ConvertReturn; an exception yields CONNECTION_LOST and nothing else.
     */
    method Get(data: ByteData, remote: RemoteReply) returns (r: DataPortStatus, data': ByteData)
      requires remote.Answered? && remote.status == PT.PORT_OK ==> buffer != null && buffer.Valid()
      requires remote.Answered? ==> listeners != null
      modifies buffer, listeners
      ensures buffer != null ==> buffer.Valid() || !old(buffer.Valid())
      ensures remote.Threw? ==>
                r == CONNECTION_LOST && data' == data
                && (buffer != null ==> buffer.samples == old(buffer.samples) && buffer.rptr == old(buffer.rptr))
                && (listeners != null ==> listeners.notices == old(listeners.notices))
      ensures remote.Answered? && remote.status != PT.PORT_OK ==>
                r == ConvertReturn(remote.status).status && data' == data
                && (buffer != null ==> buffer.samples == old(buffer.samples) && buffer.rptr == old(buffer.rptr))
                && listeners.notices == old(listeners.notices) + ConvertReturn(remote.status).notices
      ensures remote.Answered? && remote.status == PT.PORT_OK ==>
                r == PORT_OK && data' == PT.ByteData(remote.payload, data.littleEndian)
                && buffer.samples == old(buffer.samples) + [data'] && buffer.rptr == old(buffer.rptr) + 1
                && listeners.notices == old(listeners.notices)
                   + [Event(PT.ON_RECEIVED, data'), Event(PT.ON_BUFFER_WRITE, data')]
                   + (if old(buffer.Full()) then [Event(PT.ON_BUFFER_FULL, data'), Event(PT.ON_RECEIVER_FULL, data')] else [])
    {
      data' := data;
      if remote.Threw? {
        return CONNECTION_LOST, data';
      }
      if remote.status == PT.PORT_OK {
        data' := PT.ByteData(remote.payload, data.littleEndian);
        listeners.Notify([Event(PT.ON_RECEIVED, data'), Event(PT.ON_BUFFER_WRITE, data')]);
        if buffer.Full() {
          listeners.Notify([Event(PT.ON_BUFFER_FULL, data'), Event(PT.ON_RECEIVER_FULL, data')]);
        }
        buffer.PutAdvance(data');
        return PORT_OK, data';
      }
      var conv := ConvertReturn(remote.status);
      listeners.Notify(conv.notices);
      return conv.status, data';
    }

    /**
     * `subscribeInterface(properties)`: false when the IOR key is absent or
     * its value is not a string; otherwise the answer of `setObject` on the
     * resolved reference, which is stored exactly when it is accepted.
     */
    method SubscribeInterface(props: seq<NameValue>, resolves: string -> bool) returns (ok: bool)
      modifies this`objref
      ensures ok <==> SubscribeAccepts(props, resolves)
      ensures ok ==> objref == Some(props[FindIndex(props, OutPortIorKey).value].value.s)
      ensures !ok ==> objref == old(objref)
    {
      var index := FindIndex(props, OutPortIorKey);
      if index.None? {
        return false;
      }
      if props[index.value].value.AnyString? {
        var ior := props[index.value].value.s;
        ok := resolves(ior);
        if ok {
          objref := Some(ior);
        }
        return ok;
      }
      return false;
    }
  }

  /** When `subscribeInterface` succeeds: the first pair named by the IOR key holds a string the ORB resolves. */
  predicate SubscribeAccepts(props: seq<NameValue>, resolves: string -> bool)
  {
    var index := FindIndex(props, OutPortIorKey);
    index.Some? && props[index.value].value.AnyString? && resolves(props[index.value].value.s)
  }

  /** Subscription fails whenever no pair carries the IOR key, or the first one does not hold a string. */
  lemma SubscribeRejects(props: seq<NameValue>, resolves: string -> bool)
    ensures (forall j :: 0 <= j < |props| ==> props[j].name != OutPortIorKey) ==> !SubscribeAccepts(props, resolves)
    ensures (exists j :: 0 <= j < |props| && props[j].name == OutPortIorKey && props[j].value.AnyOther?
               && forall i :: 0 <= i < j ==> props[i].name != OutPortIorKey)
            ==> !SubscribeAccepts(props, resolves)
  {
  }
}
