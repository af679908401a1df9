/**
 * The typed InPort: the value it is bound to, the direct-write flag set by a
 * same-process OutPort, the connectors it reads from (each seen through its
 * name and the readable count of its buffer), and the one-entry status list.
 */
module InPortModel {
  import opened Common
  import opened DataPortStatusModel

  /** A connector as the InPort queries it: its name and how many samples its buffer holds unread. */
  datatype ConnectorView = ConnectorView(name: string, readable: nat)

  /** Whether a connector has something to read. */
  predicate HasData(c: ConnectorView)
  {
    c.readable > 0
  }

  /**
   * The names of the connectors whose HasData equals `wanted`, in connector
   * order: what `isNew(names)` (wanted) and `isEmpty(names)` (not wanted) list.
   */
  function NamesWhere(cs: seq<ConnectorView>, wanted: bool): (names: seq<string>)
    ensures |names| <= |cs|
  {
    if cs == [] then []
    else NamesWhere(cs[..|cs| - 1], wanted)
         + (if HasData(cs[|cs| - 1]) == wanted then [cs[|cs| - 1].name] else [])
  }

  /** A name is listed exactly when some connector of that name is in the wanted state. */
  lemma {:induction false} NamesWhereMembers(cs: seq<ConnectorView>, wanted: bool, x: string)
    ensures x in NamesWhere(cs, wanted) <==> exists j :: 0 <= j < |cs| && cs[j].name == x && HasData(cs[j]) == wanted
  {
    if cs != [] {
      var init := cs[..|cs| - 1];
      NamesWhereMembers(init, wanted, x);
      if x in NamesWhere(init, wanted) {
        var j :| 0 <= j < |init| && init[j].name == x && HasData(init[j]) == wanted;
        assert cs[j] == init[j];
      }
      if exists j :: 0 <= j < |cs| && cs[j].name == x && HasData(cs[j]) == wanted {
        var j :| 0 <= j < |cs| && cs[j].name == x && HasData(cs[j]) == wanted;
        if j < |init| {
          assert init[j] == cs[j];
        }
      }
    }
  }

  /** The two lists split the connectors: each connector appears in exactly one of them. */
  lemma {:induction false} NamesWherePartition(cs: seq<ConnectorView>)
    ensures |NamesWhere(cs, true)| + |NamesWhere(cs, false)| == |cs|
  {
    if cs != [] {
      NamesWherePartition(cs[..|cs| - 1]);
    }
  }

  /** The last connector named `name`, if any: the one `read(name)` picks for a non-empty name. */
  function LastNamed(cs: seq<ConnectorView>, name: string): (r: Option<nat>)
    ensures r.Some? ==> r.value < |cs| && cs[r.value].name == name
                        && forall j :: r.value < j < |cs| ==> cs[j].name != name
    ensures r.None? <==> forall j :: 0 <= j < |cs| ==> cs[j].name != name
  {
    if cs == [] then None
    else if cs[|cs| - 1].name == name then Some(|cs| - 1)
    else LastNamed(cs[..|cs| - 1], name)
  }

  /** The connector `read(name)` reads from: the first for an empty name, else the last of that name. */
  function Selected(cs: seq<ConnectorView>, name: string): (r: Option<nat>)
    ensures r.Some? ==> r.value < |cs|
    ensures name == "" ==> (r.Some? <==> cs != []) && (r.Some? ==> r.value == 0)
    ensures name != "" ==> r == LastNamed(cs, name)
  {
    if name == "" then (if cs == [] then None else Some(0)) else LastNamed(cs, name)
  }

  /** What a connector's `read` hands back: a status and, on PORT_OK, the value read. */
  datatype ReadReply<T> = ReadReply(status: DataPortStatus, value: T)

  class InPort<T> {
    var value: T
    var directNewData: bool
    var connectors: seq<ConnectorView>
    var status: seq<DataPortStatus>
    var onReadConvert: Option<T -> T>

    /** The status list always has exactly one entry. */
    ghost predicate Valid()
      reads this
    {
      |status| == 1
    }

    /** A fresh InPort holds its bound value, no direct data, no connectors, and the status list [PORT_OK]. */
    constructor (value: T)
      ensures Valid() && this.value == value && !directNewData && connectors == []
      ensures status == [PORT_OK] && onReadConvert == None
    {
      this.value := value;
      directNewData := false;
      connectors := [];
      status := [PORT_OK];
      onReadConvert := None;
    }

    method SetOnReadConvert(f: Option<T -> T>)
      modifies this`onReadConvert
      ensures onReadConvert == f
    {
      onReadConvert := f;
    }

    /** `write(d)`: a direct write stores the value and raises the direct flag. */
    method Write(d: T)
      modifies this`value, this`directNewData
      ensures value == d && directNewData
    {
      value := d;
      directNewData := true;
    }

    /** `isNew()`: direct data is new; otherwise only the first connector's buffer is looked at. */
    method IsNew() returns (r: bool)
      ensures directNewData ==> r
      ensures !directNewData ==> (r <==> connectors != [] && HasData(connectors[0]))
    {
      if directNewData {
        return true;
      }
      if connectors == [] {
        return false;
      }
      return connectors[0].readable > 0;
    }

    /** `isEmpty()`: never with direct data; otherwise empty when there is no connector or the first has nothing. */
    method IsEmpty() returns (r: bool)
      ensures directNewData ==> !r
      ensures !directNewData ==> (r <==> connectors == [] || !HasData(connectors[0]))
    {
      if directNewData {
        return false;
      }
      if connectors == [] {
        return true;
      }
      return connectors[0].readable == 0;
    }

    /** `isNew(name)`: some connector of that name has unread data. */
    method IsNewNamed(name: string) returns (r: bool)
      ensures r <==> exists j :: 0 <= j < |connectors| && connectors[j].name == name && HasData(connectors[j])
    {
      if connectors == [] {
        return false;
      }
      var i := 0;
      while i < |connectors|
        invariant i <= |connectors|
        invariant forall j :: 0 <= j < i ==> !(connectors[j].name == name && HasData(connectors[j]))
      {
        if connectors[i].name == name && connectors[i].readable > 0 {
          return true;
        }
        i := i + 1;
      }
      return false;
    }

    /** `isEmpty(name)`: some connector of that name has nothing unread. */
    method IsEmptyNamed(name: string) returns (r: bool)
      ensures r <==> exists j :: 0 <= j < |connectors| && connectors[j].name == name && !HasData(connectors[j])
    {
      if connectors == [] {
        return false;
      }
      var i := 0;
      while i < |connectors|
        invariant i <= |connectors|
        invariant forall j :: 0 <= j < i ==> !(connectors[j].name == name && !HasData(connectors[j]))
      {
        if connectors[i].name == name && connectors[i].readable == 0 {
          return true;
        }
        i := i + 1;
      }
      return false;
    }

    /** `isNew(names)`: the list is cleared, then filled with the connectors holding data. */
    method IsNewNames() returns (r: bool, names: seq<string>)
      ensures names == NamesWhere(connectors, true)
      ensures r <==> names != []
    {
      names := CollectNames(true);
      return names != [], names;
    }

    /** `isEmpty(names)`: the list is cleared, then filled with the connectors holding nothing. */
    method IsEmptyNames() returns (r: bool, names: seq<string>)
      ensures names == NamesWhere(connectors, false)
      ensures r <==> names != []
    {
      names := CollectNames(false);
      return names != [], names;
    }

    /** The loop shared by the two listing overloads: one pass in connector order. */
    method CollectNames(wanted: bool) returns (names: seq<string>)
      ensures names == NamesWhere(connectors, wanted)
    {
      names := [];
      var i := 0;
      while i < |connectors|
        invariant i <= |connectors|
        invariant names == NamesWhere(connectors[..i], wanted)
      {
        assert connectors[..i + 1][..i] == connectors[..i];
        if (connectors[i].readable > 0) == wanted {
          names := names + [connectors[i].name];
        }
        i := i + 1;
      }
      assert connectors[..i] == connectors;
    }

    /** The selection loop of `read(name)`: the last connector of that name wins. */
    method FindLastNamed(name: string) returns (r: Option<nat>)
      ensures r == LastNamed(connectors, name)
    {
      r := None;
      var i := 0;
      while i < |connectors|
        invariant i <= |connectors|
        invariant r == LastNamed(connectors[..i], name)
      {
        assert connectors[..i + 1][..i] == connectors[..i];
        if connectors[i].name == name {
          r := Some(i);
        }
        i := i + 1;
      }
      assert connectors[..i] == connectors;
    }

    /**
     * `read(name)`. The replies of the chosen connector are given as
     * `direct(k)` (`getDirectData` on connector k: Some value when it has one)
     * and `buffered(k)` (its `read`).
     * With the direct flag up: true; the value is converted when a converter
     * is set (and the flag stays up), otherwise the flag is lowered.
     * Otherwise: false without connectors or without a match; true with the
     * direct value when the chosen connector has one; else the buffered
     * read's status becomes the status list's entry and the result is true
     * exactly on PORT_OK, when the value read (converted, when a converter
     * is set) is stored.
     */
    method Read(name: string, direct: nat -> Option<T>, buffered: nat -> ReadReply<T>) returns (ok: bool)
      requires Valid()
      modifies this`value, this`directNewData, this`status
      ensures Valid()
      ensures old(directNewData) ==>
                ok && status == old(status)
                && (onReadConvert.Some? ==> value == onReadConvert.value(old(value)) && directNewData)
                && (onReadConvert.None? ==> value == old(value) && !directNewData)
      ensures !old(directNewData) ==> directNewData == old(directNewData)
      ensures !old(directNewData) && Selected(connectors, name).None? ==>
                !ok && value == old(value) && status == old(status)
      ensures !old(directNewData) && Selected(connectors, name).Some? ==>
                var k := Selected(connectors, name).value;
                if direct(k).Some? then
                  ok && value == direct(k).value && status == old(status)
                else
                  var rep := buffered(k);
                  status == [rep.status] && (ok <==> rep.status == PORT_OK)
                  && (rep.status != PORT_OK ==> value == old(value))
                  && (rep.status == PORT_OK && onReadConvert.Some? ==> value == onReadConvert.value(rep.value))
                  && (rep.status == PORT_OK && onReadConvert.None? ==> value == rep.value)
    {
      if directNewData {
        if onReadConvert.Some? {
          value := onReadConvert.value(value);
          return true;
        }
        directNewData := false;
        return true;
      }
      if connectors == [] {
        return false;
      }
      var k: nat;
      if name == "" {
        k := 0;
      } else {
        var found := FindLastNamed(name);
        if found.None? {
          return false;
        }
        k := found.value;
      }
      var d := direct(k);
      if d.Some? {
        value := d.value;
        return true;
      }
      var rep := buffered(k);
      status := [rep.status];
      if rep.status == PORT_OK {
        value := rep.value;
        if onReadConvert.Some? {
          value := onReadConvert.value(value);
        }
        return true;
      }
      return false;
    }

    /** `getStatus(index)`: the index is ignored; the one entry is returned. */
    method GetStatus(index: int) returns (st: DataPortStatus)
      requires Valid()
      ensures st == status[0]
    {
      return status[0];
    }

    /** `getStatusList()`: always a one-entry list. */
    method GetStatusList() returns (sts: seq<DataPortStatus>)
      requires Valid()
      ensures sts == status && |sts| == 1
    {
      return status;
    }
  }
}
