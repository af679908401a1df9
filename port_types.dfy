/**
 * Collaborators of the data-port core whose own source is not part of this
 * model: the ring buffer's status codes, the IDL port status, the byte-data
 * sample, the connector profile, the listener registry (as an append-only
 * log of notifications), the sample buffer (a sequence with a read index),
 * and the transport endpoints (whose replies are oracles).
 */
module PortTypes {
  import DS = DataPortStatusModel

  /** Outcome codes of the ring buffer. */
  datatype BufferStatus =
    | OK
    | BUFFER_ERROR
    | FULL
    | EMPTY
    | TIMEOUT
    | PRECONDITION_NOT_MET
    | NOT_SUPPORTED

  /** The six-valued port status of the transport IDL (OpenRTM::PortStatus, RTC::PortStatus). */
  datatype PortStatus =
    | PORT_OK
    | PORT_ERROR
    | BUFFER_FULL
    | BUFFER_EMPTY
    | BUFFER_TIMEOUT
    | UNKNOWN_ERROR

  type Byte = bv8

  /** A marshaled sample together with the endianness it is encoded in. */
  datatype ByteData = ByteData(bytes: seq<Byte>, littleEndian: bool)

  /** The part of a connector profile the core reads. */
  datatype ConnectorInfo = ConnectorInfo(name: string, id: string)

  /** Events delivered together with the sample they concern. */
  datatype DataListenerType =
    | ON_BUFFER_WRITE
    | ON_BUFFER_FULL
    | ON_BUFFER_WRITE_TIMEOUT
    | ON_BUFFER_OVERWRITE
    | ON_BUFFER_READ
    | ON_SEND
    | ON_RECEIVED
    | ON_RECEIVER_FULL
    | ON_RECEIVER_TIMEOUT
    | ON_RECEIVER_ERROR

  /** Events delivered with the connector profile only. */
  datatype ListenerType =
    | ON_BUFFER_EMPTY
    | ON_BUFFER_READ_TIMEOUT
    | ON_SENDER_EMPTY
    | ON_SENDER_TIMEOUT
    | ON_SENDER_ERROR
    | ON_CONNECT
    | ON_DISCONNECT

  /** One notification as the registry receives it. */
  datatype Notice =
    | DataNotice(dataKind: DataListenerType, data: ByteData)
    | PlainNotice(kind: ListenerType)

  /** The listener registry of one connector, observed as the log of notifications it received. */
  class ConnectorListeners {
    var notices: seq<Notice>

    constructor ()
      ensures notices == []
    {
      notices := [];
    }

    /** Deliver a batch of notifications, in order. */
    method Notify(ns: seq<Notice>)
      modifies this
      ensures notices == old(notices) + ns
    {
      notices := notices + ns;
    }
  }

  /**
   * A connector's sample buffer: every sample stored so far and the read
   * index; the readable region is `samples[rptr..]`.
   */
  class CdrBuffer {
    var samples: seq<ByteData>
    var rptr: nat
    const capacity: nat

    ghost predicate Valid()
      reads this
    {
      rptr <= |samples|
    }

    constructor (capacity: nat)
      ensures Valid() && samples == [] && rptr == 0 && this.capacity == capacity
    {
      samples := [];
      rptr := 0;
      this.capacity := capacity;
    }

    function Readable(): (n: nat)
      reads this
      requires Valid()
      ensures n == |samples| - rptr
    {
      |samples| - rptr
    }

    function Full(): bool
      reads this
      requires Valid()
    {
      Readable() >= capacity
    }

    /** The readable region, oldest first. */
    function Unread(): (s: seq<ByteData>)
      reads this
      requires Valid()
      ensures |s| == Readable()
    {
      samples[rptr..]
    }

    /** The sample at the read index (`get()`); only inside the readable region. */
    method Get() returns (d: ByteData)
      requires Valid() && rptr < |samples|
      ensures d == samples[rptr]
    {
      d := samples[rptr];
    }

    /** Move the read index by `n` (negative: rewind), staying within the stored samples. */
    method AdvanceRptr(n: int)
      requires Valid() && 0 <= rptr + n <= |samples|
      modifies this
      ensures Valid() && samples == old(samples) && rptr == old(rptr) + n
    {
      rptr := rptr + n;
    }

    /**
     * `write(d, timeout)`: the ring buffer's policy is not modelled, so its
     * outcome is given; the sample is stored exactly when the outcome is OK.
     */
    method Write(d: ByteData, outcome: BufferStatus) returns (st: BufferStatus)
      requires Valid()
      modifies this
      ensures Valid() && st == outcome && rptr == old(rptr)
      ensures samples == old(samples) + (if outcome == OK then [d] else [])
    {
      if outcome == OK {
        samples := samples + [d];
      }
      st := outcome;
    }

    /** `put(d); advanceWptr(); advanceRptr();`: store at the write end and move the read index on. */
    method PutAdvance(d: ByteData)
      requires Valid()
      modifies this
      ensures Valid() && samples == old(samples) + [d] && rptr == old(rptr) + 1
    {
      samples := samples + [d];
      rptr := rptr + 1;
    }
  }

  /**
   * The push-side transport handle. Its reply to the n-th `put` of sample d
   * is `reply(n, d)`; every put is recorded in `sent`.
   */
  class InPortConsumer {
    var sent: seq<ByteData>
    const reply: (nat, ByteData) -> DS.DataPortStatus

    constructor (reply: (nat, ByteData) -> DS.DataPortStatus)
      ensures sent == [] && this.reply == reply
    {
      sent := [];
      this.reply := reply;
    }

    method Put(d: ByteData) returns (st: DS.DataPortStatus)
      modifies this
      ensures sent == old(sent) + [d]
      ensures st == reply(|old(sent)|, d)
    {
      st := reply(|sent|, d);
      sent := sent + [d];
    }
  }

  /**
   * The receiving connector as the inbound providers see it: its endianness
   * and its `write`, whose reply to the n-th write of d is `writeReply(n, d)`.
   */
  class InPortConnector {
    var written: seq<ByteData>
    const littleEndian: bool
    const writeReply: (nat, ByteData) -> BufferStatus

    constructor (littleEndian: bool, writeReply: (nat, ByteData) -> BufferStatus)
      ensures written == [] && this.littleEndian == littleEndian && this.writeReply == writeReply
    {
      written := [];
      this.littleEndian := littleEndian;
      this.writeReply := writeReply;
    }

    function IsLittleEndian(): bool
    {
      littleEndian
    }

    method Write(d: ByteData) returns (st: BufferStatus)
      modifies this
      ensures written == old(written) + [d]
      ensures st == writeReply(|old(written)|, d)
    {
      st := writeReply(|written|, d);
      written := written + [d];
    }
  }

  /** An InPort as a direct-mode OutPort connector sees it: the owner of a listener registry. */
  class InPortBase {
    const listeners: ConnectorListeners

    constructor (listeners: ConnectorListeners)
      ensures this.listeners == listeners
    {
      this.listeners := listeners;
    }
  }
}
