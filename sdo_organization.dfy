/**
 * An SDO organization: an owner, an ordered list of name/value properties,
 * an ordered member list and a dependency kind. Lookups go by the first
 * entry with the wanted name (or member id); a bad argument raises
 * InvalidParameter and changes nothing.
 */
module SdoOrganization {
  import opened Common

  datatype DependencyType = OWN | OWNED | NO_DEPENDENCY

  datatype SdoError = InvalidParameter(reason: string)

  /** One organization property: a name and a value of any type. */
  datatype NameValue<V> = NameValue(name: string, value: V)

  /** A member SDO, known by the id it reports and its object reference. */
  datatype Sdo = Sdo(id: string, ref: nat)

  /** `CORBA_SeqUtil::find(properties, nv_name(name))`: the first entry with that name. */
  function FindName<V>(props: seq<NameValue<V>>, name: string): (r: Option<nat>)
    ensures r.Some? ==> r.value < |props| && props[r.value].name == name
                        && forall j :: 0 <= j < r.value ==> props[j].name != name
    ensures r.None? <==> forall j :: 0 <= j < |props| ==> props[j].name != name
  {
    if props == [] then None
    else if props[0].name == name then Some(0)
    else match FindName(props[1..], name)
         case None => None
         case Some(i) => Some(i + 1)
  }

  /** `CORBA_SeqUtil::find(members, sdo_id(id))`: the first member with that id. */
  function FindMember(ms: seq<Sdo>, id: string): (r: Option<nat>)
    ensures r.Some? ==> r.value < |ms| && ms[r.value].id == id
                        && forall j :: 0 <= j < r.value ==> ms[j].id != id
    ensures r.None? <==> forall j :: 0 <= j < |ms| ==> ms[j].id != id
  {
    if ms == [] then None
    else if ms[0].id == id then Some(0)
    else match FindMember(ms[1..], id)
         case None => None
         case Some(i) => Some(i + 1)
  }

  /** The value a lookup by name finds: that of the first entry with the name. */
  function Lookup<V>(props: seq<NameValue<V>>, name: string): Option<V>
  {
    match FindName(props, name)
    case None => None
    case Some(i) => Some(props[i].value)
  }

  /** The property list after `set_organization_property_value(name, v)`: update in place, or append. */
  function SetValue<V>(props: seq<NameValue<V>>, name: string, v: V): (r: seq<NameValue<V>>)
    ensures FindName(props, name).None? ==> r == props + [NameValue(name, v)]
    ensures FindName(props, name).Some? ==>
              |r| == |props| && r[FindName(props, name).value] == NameValue(name, v)
              && forall j :: 0 <= j < |props| && j != FindName(props, name).value ==> r[j] == props[j]
  {
    match FindName(props, name)
    case None => props + [NameValue(name, v)]
    case Some(i) => props[i := NameValue(name, v)]
  }

  /** Setting then getting a name gives the value set, and leaves every other name's value unchanged. */
  lemma SetThenLookup<V>(props: seq<NameValue<V>>, name: string, v: V, other: string)
    ensures Lookup(SetValue(props, name, v), name) == Some(v)
    ensures other != name ==> Lookup(SetValue(props, name, v), other) == Lookup(props, other)
  {
    var r := SetValue(props, name, v);
    match FindName(props, name) {
      case None =>
        LookupAt(r, name, |props|);
      case Some(i) =>
        LookupAt(r, name, i);
    }
    if other != name {
      SetKeepsOther(props, name, v, other);
    }
  }

  /** Setting one name changes no entry of another name. */
  lemma SetKeepsOther<V>(props: seq<NameValue<V>>, name: string, v: V, other: string)
    requires other != name
    ensures Lookup(SetValue(props, name, v), other) == Lookup(props, other)
  {
    var r := SetValue(props, name, v);
    assert forall j :: 0 <= j < |props| ==> (r[j].name == other <==> props[j].name == other);
    match FindName(props, other)
    case None =>
      assert FindName(r, other).None?;
    case Some(k) =>
      assert r[k] == props[k];
      LookupAt(r, other, k);
  }

  /** Setting the same name twice keeps one entry for it: the second set only updates it. */
  lemma SetValueTwice<V>(props: seq<NameValue<V>>, name: string, v: V, w: V)
    ensures |SetValue(SetValue(props, name, v), name, w)| == |SetValue(props, name, v)|
    ensures SetValue(SetValue(props, name, v), name, w) == SetValue(props, name, w)
  {
    var r := SetValue(props, name, v);
    match FindName(props, name)
    case None =>
      assert forall j :: 0 <= j < |props| ==> r[j] == props[j];
      assert r[|props|].name == name;
      assert FindName(r, name) == Some(|props|);
    case Some(i) =>
      assert r[i].name == name;
      assert forall j :: 0 <= j < i ==> r[j] == props[j];
      assert FindName(r, name) == Some(i);
  }

  /** Erasing entry `i` keeps all the others, in order. */
  function EraseAt<T>(s: seq<T>, i: nat): (r: seq<T>)
    requires i < |s|
    ensures |r| == |s| - 1
    ensures forall j :: 0 <= j < i ==> r[j] == s[j]
    ensures forall j :: i <= j < |r| ==> r[j] == s[j + 1]
  {
    s[..i] + s[i + 1..]
  }

  /** The entry at `j` is the first one named `x`, so a lookup of `x` finds its value. */
  lemma LookupAt<V>(s: seq<NameValue<V>>, x: string, j: nat)
    requires j < |s| && s[j].name == x && forall l :: 0 <= l < j ==> s[l].name != x
    ensures Lookup(s, x) == Some(s[j].value)
  {
    var r := FindName(s, x);
    assert r.Some?;
    assert !(r.value < j) && !(j < r.value);
  }

  /** Removing the first entry of one name leaves the lookup of every other name unchanged. */
  lemma RemoveThenLookup<V>(props: seq<NameValue<V>>, name: string, other: string)
    requires FindName(props, name).Some? && other != name
    ensures Lookup(EraseAt(props, FindName(props, name).value), other) == Lookup(props, other)
  {
    var i := FindName(props, name).value;
    match FindName(props, other)
    case None =>
      EraseKeepsAbsent(props, i, other);
    case Some(k) =>
      EraseKeepsFirst(props, i, other, k);
  }

  /** Erasing an entry cannot make a name appear. */
  lemma EraseKeepsAbsent<V>(props: seq<NameValue<V>>, i: nat, x: string)
    requires i < |props| && forall j :: 0 <= j < |props| ==> props[j].name != x
    ensures Lookup(EraseAt(props, i), x) == None
  {
    var r := EraseAt(props, i);
    forall j | 0 <= j < |r|
      ensures r[j].name != x
    {
      if j >= i {
        assert r[j] == props[j + 1];
      }
    }
  }

  /** Erasing an entry of another name keeps the first entry named `x` first. */
  lemma EraseKeepsFirst<V>(props: seq<NameValue<V>>, i: nat, x: string, k: nat)
    requires i < |props| && k < |props| && i != k && props[k].name == x
    requires forall l :: 0 <= l < k ==> props[l].name != x
    ensures Lookup(EraseAt(props, i), x) == Some(props[k].value)
  {
    var r := EraseAt(props, i);
    if k < i {
      LookupAt(r, x, k);
    } else {
      assert r[k - 1] == props[k];
      forall l | 0 <= l < k - 1
        ensures r[l].name != x
      {
        if l >= i {
          assert r[l] == props[l + 1];
        }
      }
      LookupAt(r, x, k - 1);
    }
  }

  class Organization<V> {
    const id: string
    var owner: Option<nat>
    var properties: seq<NameValue<V>>
    var members: seq<Sdo>
    var dependency: DependencyType

    /** A new organization has its generated id, the given owner (possibly nil), nothing in it, and dependency OWN. */
    constructor (owner: Option<nat>, uuid: string)
      ensures id == uuid && this.owner == owner && properties == [] && members == [] && dependency == OWN
    {
      id := uuid;
      this.owner := owner;
      properties := [];
      members := [];
      dependency := OWN;
    }

    method GetOrganizationId() returns (r: string)
      ensures r == id
    {
      return id;
    }

    method GetOrganizationProperty() returns (r: seq<NameValue<V>>)
      ensures r == properties
    {
      return properties;
    }

    /** `get_organization_property_value(name)`: an empty or unknown name is an InvalidParameter. */
    method GetOrganizationPropertyValue(name: string) returns (r: Result<V, SdoError>)
      ensures name == "" ==> r == Err(InvalidParameter("Empty name."))
      ensures name != "" && Lookup(properties, name).None? ==> r == Err(InvalidParameter("Not found."))
      ensures name != "" && Lookup(properties, name).Some? ==> r == Ok(Lookup(properties, name).value)
    {
      if name == "" {
        return Err(InvalidParameter("Empty name."));
      }
      var index := FindName(properties, name);
      if index.None? {
        return Err(InvalidParameter("Not found."));
      }
      return Ok(properties[index.value].value);
    }

    /** `add_organization_property(p)`: replaces the whole property list. */
    method AddOrganizationProperty(p: seq<NameValue<V>>) returns (r: bool)
      modifies this`properties
      ensures r && properties == p
    {
      properties := p;
      return true;
    }

    /** `set_organization_property_value(name, v)`: an empty name is refused; otherwise update in place or append. */
    method SetOrganizationPropertyValue(name: string, v: V) returns (r: Result<bool, SdoError>)
      modifies this`properties
      ensures name == "" ==> r == Err(InvalidParameter("set_organization_property_value(): Enpty name."))
                             && properties == old(properties)
      ensures name != "" ==> r == Ok(true) && properties == SetValue(old(properties), name, v)
    {
      if name == "" {
        return Err(InvalidParameter("set_organization_property_value(): Enpty name."));
      }
      var index := FindName(properties, name);
      if index.None? {
        properties := properties + [NameValue(name, v)];
      } else {
        properties := properties[index.value := NameValue(name, v)];
      }
      return Ok(true);
    }

    /** `remove_organization_property(name)`: an empty or unknown name is refused; otherwise its first entry goes. */
    method RemoveOrganizationProperty(name: string) returns (r: Result<bool, SdoError>)
      modifies this`properties
      ensures name == "" ==> r == Err(InvalidParameter("remove_organization_property(): Enpty name."))
                             && properties == old(properties)
      ensures name != "" && FindName(old(properties), name).None? ==>
                r == Err(InvalidParameter("remove_organization_property(): Not found."))
                && properties == old(properties)
      ensures name != "" && FindName(old(properties), name).Some? ==>
                r == Ok(true) && properties == EraseAt(old(properties), FindName(old(properties), name).value)
    {
      if name == "" {
        return Err(InvalidParameter("remove_organization_property(): Enpty name."));
      }
      var index := FindName(properties, name);
      if index.None? {
        return Err(InvalidParameter("remove_organization_property(): Not found."));
      }
      properties := EraseAt(properties, index.value);
      return Ok(true);
    }

    /** `get_owner()`: the owner reference is handed to the caller, which leaves the organization without one. */
    method GetOwner() returns (r: Option<nat>)
      modifies this`owner
      ensures r == old(owner) && owner == None
    {
      r := owner;
      owner := None;
    }

    /** `set_owner(sdo)`: a nil owner is refused. */
    method SetOwner(sdo: Option<nat>) returns (r: Result<bool, SdoError>)
      modifies this`owner
      ensures sdo.None? ==> r == Err(InvalidParameter("set_owner()")) && owner == old(owner)
      ensures sdo.Some? ==> r == Ok(true) && owner == sdo
    {
      if sdo.None? {
        return Err(InvalidParameter("set_owner()"));
      }
      owner := sdo;
      return Ok(true);
    }

    method GetMembers() returns (r: seq<Sdo>)
      ensures r == members
    {
      return members;
    }

    /** `set_members(sdos)`: replaces the whole member list. */
    method SetMembers(sdos: seq<Sdo>) returns (r: bool)
      modifies this`members
      ensures r && members == sdos
    {
      members := sdos;
      return true;
    }

    /** `add_members(sdos)`: an empty list is refused; otherwise it is appended, in order. */
    method AddMembers(sdos: seq<Sdo>) returns (r: Result<bool, SdoError>)
      modifies this`members
      ensures sdos == [] ==> r == Err(InvalidParameter("set_members(): number of SDOList is invalid."))
                             && members == old(members)
      ensures sdos != [] ==> r == Ok(true) && members == old(members) + sdos
    {
      if |sdos| == 0 {
        return Err(InvalidParameter("set_members(): number of SDOList is invalid."));
      }
      members := members + sdos;
      return Ok(true);
    }

    /** `remove_member(id)`: an empty or unknown id is refused; otherwise the first member with it goes. */
    method RemoveMember(memberId: string) returns (r: Result<bool, SdoError>)
      modifies this`members
      ensures memberId == "" ==> r == Err(InvalidParameter("remove_member(): Enpty name.")) && members == old(members)
      ensures memberId != "" && FindMember(old(members), memberId).None? ==>
                r == Err(InvalidParameter("remove_member(): Not found.")) && members == old(members)
      ensures memberId != "" && FindMember(old(members), memberId).Some? ==>
                r == Ok(true) && members == EraseAt(old(members), FindMember(old(members), memberId).value)
    {
      if memberId == "" {
        return Err(InvalidParameter("remove_member(): Enpty name."));
      }
      var index := FindMember(members, memberId);
      if index.None? {
        return Err(InvalidParameter("remove_member(): Not found."));
      }
      members := EraseAt(members, index.value);
      return Ok(true);
    }

    method GetDependency() returns (r: DependencyType)
      ensures r == dependency
    {
      return dependency;
    }

    method SetDependency(d: DependencyType) returns (r: bool)
      modifies this`dependency
      ensures r && dependency == d
    {
      dependency := d;
      return true;
    }
  }
}
