/**
 * The data-service inbound provider: the same receive path as the CORBA-CDR
 * provider, entered through `push` and answering with the RTC port status.
 */
module InPortDSProvider {
  import PT = PortTypes
  import Cdr = InPortCorbaCdrProvider

  type ByteData = PT.ByteData

  function Event(k: PT.DataListenerType, d: ByteData): PT.Notice
  {
    PT.DataNotice(k, d)
  }

  /**
   * `convertReturn` of this provider: its own switch, which lets a sample
   * through exactly on OK and stays silent exactly on EMPTY and NOT_SUPPORTED.
   */
  function ConvertReturn(st: PT.BufferStatus, d: ByteData): (r: Cdr.Converted)
    ensures r.status == PT.PORT_OK <==> st == PT.OK
    ensures r.notices == [] <==> st == PT.EMPTY || st == PT.NOT_SUPPORTED
    ensures forall i :: 0 <= i < |r.notices| ==> r.notices[i].DataNotice? && r.notices[i].data == d
  {
    match st
    case OK => Cdr.Converted(PT.PORT_OK, [Event(PT.ON_BUFFER_WRITE, d)])
    case BUFFER_ERROR => Cdr.Converted(PT.PORT_ERROR, [Event(PT.ON_RECEIVER_ERROR, d)])
    case FULL => Cdr.Converted(PT.BUFFER_FULL, [Event(PT.ON_BUFFER_FULL, d), Event(PT.ON_RECEIVER_FULL, d)])
    case EMPTY => Cdr.Converted(PT.BUFFER_EMPTY, [])
    case PRECONDITION_NOT_MET => Cdr.Converted(PT.PORT_ERROR, [Event(PT.ON_RECEIVER_ERROR, d)])
    case TIMEOUT => Cdr.Converted(PT.BUFFER_TIMEOUT, [Event(PT.ON_BUFFER_WRITE_TIMEOUT, d), Event(PT.ON_RECEIVER_TIMEOUT, d)])
    case NOT_SUPPORTED => Cdr.Converted(PT.UNKNOWN_ERROR, [])
  }

  /** Both inbound providers translate every buffer status to the same status and the same notifications. */
  lemma SameTableAsCorbaCdr(st: PT.BufferStatus, d: ByteData)
    ensures ConvertReturn(st, d) == Cdr.ConvertReturn(st, d)
  {
  }

  /** The provider, with the fields `push` and the setters update. */
  class Provider {
    /** `m_cdr`: the last sample received, in the endianness it was stamped with. */
    var cdr: ByteData
    var buffer: PT.CdrBuffer?
    var profile: PT.ConnectorInfo
    var listeners: PT.ConnectorListeners?
    var connector: PT.InPortConnector?

    /** A fresh provider has nothing attached and holds an empty sample. */
    constructor (profile: PT.ConnectorInfo)
      ensures buffer == null && listeners == null && connector == null
      ensures cdr.bytes == [] && this.profile == profile
    {
      cdr := PT.ByteData([], true);
      buffer := null;
      this.profile := profile;
      listeners := null;
      connector := null;
    }

    method SetBuffer(b: PT.CdrBuffer?)
      modifies this`buffer
      ensures buffer == b
    {
      buffer := b;
    }

    method SetListener(info: PT.ConnectorInfo, ls: PT.ConnectorListeners?)
      modifies this`profile, this`listeners
      ensures profile == info && listeners == ls
    {
      profile := info;
      listeners := ls;
    }

    method SetConnector(c: PT.InPortConnector?)
      modifies this`connector
      ensures connector == c
    {
      connector := c;
    }

    /**
     * `push(data)`: without a connector, ON_RECEIVER_ERROR and PORT_ERROR and
     * no write; with one, the connector's endianness, ON_RECEIVED, the write,
     * and the write's answer through ConvertReturn.
     */
    method Push(data: seq<PT.Byte>) returns (r: PT.PortStatus)
      requires listeners != null
      modifies this`cdr, listeners, connector
      ensures connector == null ==>
                r == PT.PORT_ERROR && cdr == PT.ByteData(data, old(cdr).littleEndian)
                && listeners.notices == old(listeners.notices) + [Event(PT.ON_RECEIVER_ERROR, cdr)]
      ensures connector != null ==>
                cdr == PT.ByteData(data, connector.littleEndian)
                && connector.written == old(connector.written) + [cdr]
                && var conv := ConvertReturn(connector.writeReply(|old(connector.written)|, cdr), cdr);
                   r == conv.status
                   && listeners.notices == old(listeners.notices) + [Event(PT.ON_RECEIVED, cdr)] + conv.notices
    {
      if connector == null {
        cdr := PT.ByteData(data, cdr.littleEndian);
        listeners.Notify([Event(PT.ON_RECEIVER_ERROR, cdr)]);
        return PT.PORT_ERROR;
      }
      var endian := connector.IsLittleEndian();
      cdr := PT.ByteData(data, endian);
      listeners.Notify([Event(PT.ON_RECEIVED, cdr)]);
      var ret := connector.Write(cdr);
      var conv := ConvertReturn(ret, cdr);
      listeners.Notify(conv.notices);
      return conv.status;
    }
  }
}
