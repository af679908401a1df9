/**
 * The state every OutPort connector shares: its profile, the endianness it
 * marshals in, the pull-direct mode switch and the InPort it is bound to in
 * direct mode.
 */
module OutPortConnector {
  import PT = PortTypes

  class Connector {
    const profile: PT.ConnectorInfo
    const listeners: PT.ConnectorListeners?
    const marshalingType: string
    var littleEndian: bool
    var directMode: bool
    var directInPort: PT.InPortBase?
    /** The registry of the bound InPort, copied when it is bound. */
    var inPortListeners: PT.ConnectorListeners?

    /** A fresh connector is little-endian, not in pull-direct mode, and bound to no InPort. */
    constructor (info: PT.ConnectorInfo, listeners: PT.ConnectorListeners?)
      ensures profile == info && this.listeners == listeners && marshalingType == "cdr"
      ensures littleEndian && !directMode && directInPort == null
    {
      profile := info;
      this.listeners := listeners;
      marshalingType := "cdr";
      littleEndian := true;
      directMode := false;
      directInPort := null;
      inPortListeners := null;
    }

    method Id() returns (r: string)
      ensures r == profile.id
    {
      return profile.id;
    }

    method Name() returns (r: string)
      ensures r == profile.name
    {
      return profile.name;
    }

    /** `setEndian(b)`: afterwards `isLittleEndian()` answers `b`; nothing else changes. */
    method SetEndian(b: bool)
      modifies this`littleEndian
      ensures littleEndian == b
    {
      littleEndian := b;
    }

    method IsLittleEndian() returns (r: bool)
      ensures r == littleEndian
    {
      return littleEndian;
    }

    /** `setPullDirectMode()`: one-way; no operation of the connector clears the mode. */
    method SetPullDirectMode()
      modifies this`directMode
      ensures directMode
    {
      directMode := true;
    }

    method PullDirectMode() returns (r: bool)
      ensures r == directMode
    {
      return directMode;
    }

    /** `setInPort(p)`: a null InPort is refused and changes nothing; another is bound, with its registry. */
    method SetInPort(p: PT.InPortBase?) returns (ok: bool)
      modifies this`directInPort, this`inPortListeners
      ensures ok <==> p != null
      ensures p == null ==> directInPort == old(directInPort) && inPortListeners == old(inPortListeners)
      ensures p != null ==> directInPort == p && inPortListeners == p.listeners
    {
      if p == null {
        return false;
      }
      directInPort := p;
      inPortListeners := p.listeners;
      return true;
    }

    /** `read(data)`: the base connector has nothing to read; it answers OK and leaves `data` as it is. */
    method Read(data: PT.ByteData) returns (st: PT.BufferStatus, data': PT.ByteData)
      ensures st == PT.OK && data' == data
    {
      return PT.OK, data;
    }
  }
}
