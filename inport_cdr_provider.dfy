/**
 * The CORBA-CDR inbound provider: the remote side calls `put` with a
 * marshaled sample; the provider stamps it with the connector's endianness,
 * hands it to the connector's `write`, and translates the buffer's answer
 * into the transport's port status, firing the listeners that answer asks for.
 */
module InPortCorbaCdrProvider {
  import PT = PortTypes

  type ByteData = PT.ByteData
  type Notice = PT.Notice

  /** A transport status together with the notifications fired to produce it, in order. */
  datatype Converted = Converted(status: PT.PortStatus, notices: seq<Notice>)

  function Event(k: PT.DataListenerType, d: ByteData): Notice
  {
    PT.DataNotice(k, d)
  }

  /** The receiver-side notifications: the ones telling the sender's side that delivery failed. */
  predicate ReceiverSide(n: Notice)
  {
    n.DataNotice? && (n.dataKind == PT.ON_RECEIVER_ERROR || n.dataKind == PT.ON_RECEIVER_FULL
                      || n.dataKind == PT.ON_RECEIVER_TIMEOUT)
  }

  /**
   * `convertReturn`: the buffer status decides the port status (an exact
   * partition of the seven buffer statuses) and the notifications, all of
   * which carry the written sample.
   */
  function ConvertReturn(st: PT.BufferStatus, d: ByteData): (r: Converted)
    ensures r.status == PT.PORT_OK <==> st == PT.OK
    ensures r.status == PT.PORT_ERROR <==> st == PT.BUFFER_ERROR || st == PT.PRECONDITION_NOT_MET
    ensures r.status == PT.BUFFER_FULL <==> st == PT.FULL
    ensures r.status == PT.BUFFER_EMPTY <==> st == PT.EMPTY
    ensures r.status == PT.BUFFER_TIMEOUT <==> st == PT.TIMEOUT
    ensures r.status == PT.UNKNOWN_ERROR <==> st == PT.NOT_SUPPORTED
    ensures st == PT.OK ==> r.notices == [Event(PT.ON_BUFFER_WRITE, d)]
    ensures st == PT.BUFFER_ERROR || st == PT.PRECONDITION_NOT_MET ==> r.notices == [Event(PT.ON_RECEIVER_ERROR, d)]
    ensures st == PT.FULL ==> r.notices == [Event(PT.ON_BUFFER_FULL, d), Event(PT.ON_RECEIVER_FULL, d)]
    ensures st == PT.TIMEOUT ==> r.notices == [Event(PT.ON_BUFFER_WRITE_TIMEOUT, d), Event(PT.ON_RECEIVER_TIMEOUT, d)]
    ensures r.notices == [] <==> st == PT.EMPTY || st == PT.NOT_SUPPORTED
  {
    match st
    case OK => Converted(PT.PORT_OK, [Event(PT.ON_BUFFER_WRITE, d)])
    case BUFFER_ERROR => Converted(PT.PORT_ERROR, [Event(PT.ON_RECEIVER_ERROR, d)])
    case FULL => Converted(PT.BUFFER_FULL, [Event(PT.ON_BUFFER_FULL, d), Event(PT.ON_RECEIVER_FULL, d)])
    case EMPTY => Converted(PT.BUFFER_EMPTY, [])
    case PRECONDITION_NOT_MET => Converted(PT.PORT_ERROR, [Event(PT.ON_RECEIVER_ERROR, d)])
    case TIMEOUT => Converted(PT.BUFFER_TIMEOUT, [Event(PT.ON_BUFFER_WRITE_TIMEOUT, d), Event(PT.ON_RECEIVER_TIMEOUT, d)])
    case NOT_SUPPORTED => Converted(PT.UNKNOWN_ERROR, [])
  }

  /** The notifications depend on the buffer status only through the port status it maps to. */
  lemma ConvertReturnNoticesByStatus(a: PT.BufferStatus, b: PT.BufferStatus, d: ByteData)
    requires ConvertReturn(a, d).status == ConvertReturn(b, d).status
    ensures ConvertReturn(a, d).notices == ConvertReturn(b, d).notices
  {
  }

  /**
   * A receiver-side notification is fired exactly when the sample was refused
   * by a failing buffer (error, full or timeout), and it is always the last one.
   */
  lemma ConvertReturnReceiverSide(st: PT.BufferStatus, d: ByteData)
    ensures var r := ConvertReturn(st, d);
            (exists i :: 0 <= i < |r.notices| && ReceiverSide(r.notices[i]))
            <==> r.status in {PT.PORT_ERROR, PT.BUFFER_FULL, PT.BUFFER_TIMEOUT}
    ensures var r := ConvertReturn(st, d);
            forall i :: 0 <= i < |r.notices| - 1 ==> !ReceiverSide(r.notices[i])
  {
    var r := ConvertReturn(st, d);
    if r.status in {PT.PORT_ERROR, PT.BUFFER_FULL, PT.BUFFER_TIMEOUT} {
      assert ReceiverSide(r.notices[|r.notices| - 1]);
    }
  }

  /** The provider, with the fields `put` and the setters update. */
  class Provider {
    /** `m_cdr`: the last sample received, in the endianness it was stamped with. */
    var cdr: ByteData
    var buffer: PT.CdrBuffer?
    var profile: PT.ConnectorInfo
    var listeners: PT.ConnectorListeners?
    var connector: PT.InPortConnector?

    /** A fresh provider has nothing attached and holds an empty sample. */
    constructor (profile: PT.ConnectorInfo)
      ensures buffer == null && listeners == null && connector == null
      ensures cdr.bytes == [] && this.profile == profile
    {
      cdr := PT.ByteData([], true);
      buffer := null;
      this.profile := profile;
      listeners := null;
      connector := null;
    }

    method SetBuffer(b: PT.CdrBuffer?)
      modifies this`buffer
      ensures buffer == b
    {
      buffer := b;
    }

    method SetListener(info: PT.ConnectorInfo, ls: PT.ConnectorListeners?)
      modifies this`profile, this`listeners
      ensures profile == info && listeners == ls
    {
      profile := info;
      listeners := ls;
    }

    method SetConnector(c: PT.InPortConnector?)
      modifies this`connector
      ensures connector == c
    {
      connector := c;
    }

    /**
     * `put(data)`. Without a connector the sample is kept in the old
     * endianness, ON_RECEIVER_ERROR is fired and PORT_ERROR returned.
     * With one, the sample takes the connector's endianness, ON_RECEIVED is
     * fired whatever the write returns, the sample is written to the
     * connector, and the write's answer goes through ConvertReturn.
     */
    method Put(data: seq<PT.Byte>) returns (r: PT.PortStatus)
      requires listeners != null
      modifies this`cdr, listeners, connector
      ensures connector == null ==>
                r == PT.PORT_ERROR && cdr == PT.ByteData(data, old(cdr).littleEndian)
                && listeners.notices == old(listeners.notices) + [Event(PT.ON_RECEIVER_ERROR, cdr)]
      ensures connector != null ==>
                cdr == PT.ByteData(data, connector.littleEndian)
                && connector.written == old(connector.written) + [cdr]
                && var conv := ConvertReturn(connector.writeReply(|old(connector.written)|, cdr), cdr);
                   r == conv.status
                   && listeners.notices == old(listeners.notices) + [Event(PT.ON_RECEIVED, cdr)] + conv.notices
    {
      if connector == null {
        cdr := PT.ByteData(data, cdr.littleEndian);
        listeners.Notify([Event(PT.ON_RECEIVER_ERROR, cdr)]);
        return PT.PORT_ERROR;
      }
      var endian := connector.IsLittleEndian();
      cdr := PT.ByteData(data, endian);
      listeners.Notify([Event(PT.ON_RECEIVED, cdr)]);
      var ret := connector.Write(cdr);
      var conv := ConvertReturn(ret, cdr);
      listeners.Notify(conv.notices);
      return conv.status;
    }
  }
}
