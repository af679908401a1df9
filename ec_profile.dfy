/**
 * The profile an execution context keeps: its period, its kind, its owner
 * and the ordered list of participating components. Components are object
 * references; whether a reference narrows to an RTObject is up to the ORB,
 * so it is the oracle `narrows`.
 */
module ExecutionContextProfileModel {
  import opened Common

  datatype ReturnCode = RTC_OK | RTC_ERROR | BAD_PARAMETER

  /** A component's object reference. */
  type Component = nat

  /** The enumerator values of the execution kind. */
  const PERIODIC: int := 0
  const EVENT_DRIVEN: int := 1
  const OTHER: int := 2

  /** The initial period, one microsecond, in nanoseconds. */
  const InitialPeriod: int := 1000

  predicate ValidKind(kind: int)
  {
    PERIODIC <= kind <= OTHER
  }

  const KindNames: seq<string> := ["PERIODIC", "EVENT_DRIVEN", "OTHER"]

  /** `getKindString(kind)`: the kind's name, or "" for a value outside the enumeration. */
  function KindString(kind: int): (r: string)
    ensures r == "" <==> !ValidKind(kind)
    ensures ValidKind(kind) ==> r == KindNames[kind]
  {
    if kind < PERIODIC || kind > OTHER then "" else KindNames[kind]
  }

  /** The three names are the enumerators' own, and distinct kinds get distinct names. */
  lemma KindStringNames(a: int, b: int)
    ensures KindString(PERIODIC) == "PERIODIC" && KindString(EVENT_DRIVEN) == "EVENT_DRIVEN"
    ensures KindString(OTHER) == "OTHER"
    ensures ValidKind(a) && ValidKind(b) && KindString(a) == KindString(b) ==> a == b
  {
  }

  /** The first participant equivalent to `c`. */
  function FindParticipant(ps: seq<Component>, c: Component): (r: Option<nat>)
    ensures r.Some? ==> r.value < |ps| && ps[r.value] == c && forall j :: 0 <= j < r.value ==> ps[j] != c
    ensures r.None? <==> c !in ps
  {
    if ps == [] then None
    else if ps[0] == c then Some(0)
    else match FindParticipant(ps[1..], c)
         case None => None
         case Some(i) => Some(i + 1)
  }

  /** The participant list after removing the first occurrence of `c` (which must be present). */
  function RemoveFirst(ps: seq<Component>, c: Component): (r: seq<Component>)
    requires c in ps
    ensures |r| == |ps| - 1
    ensures multiset(r) == multiset(ps) - multiset{c}
  {
    var i := FindParticipant(ps, c).value;
    assert ps == ps[..i] + [ps[i]] + ps[i + 1..];
    ps[..i] + ps[i + 1..]
  }

  /**
   * Adding a component and then removing it restores the participants as a
   * multiset, and restores the very list when the component was not already taking part.
   */
  lemma {:induction false} AddThenRemove(ps: seq<Component>, c: Component)
    ensures multiset(RemoveFirst(ps + [c], c)) == multiset(ps)
    ensures c !in ps ==> RemoveFirst(ps + [c], c) == ps
  {
    assert c in ps + [c] by {
      assert (ps + [c])[|ps|] == c;
    }
    if c !in ps {
      var q := ps + [c];
      assert forall j :: 0 <= j < |ps| ==> q[j] == ps[j];
      assert FindParticipant(q, c) == Some(|ps|);
      assert q[..|ps|] == ps;
    }
  }

  class Profile {
    var period: int
    var kind: int
    var owner: Option<Component>
    var participants: seq<Component>

    /** A new profile: a one-microsecond period, kind PERIODIC, no owner, no participants. */
    constructor ()
      ensures period == InitialPeriod && kind == PERIODIC && owner == None && participants == []
    {
      period := InitialPeriod;
      kind := PERIODIC;
      owner := None;
      participants := [];
    }

    /** `setPeriod(p)`: a period that is not positive is refused and the old one kept. */
    method SetPeriod(p: int) returns (r: ReturnCode)
      modifies this`period
      ensures p <= 0 ==> r == BAD_PARAMETER && period == old(period)
      ensures p > 0 ==> r == RTC_OK && period == p
    {
      if p <= 0 {
        return BAD_PARAMETER;
      }
      period := p;
      return RTC_OK;
    }

    method GetPeriod() returns (p: int)
      ensures p == period
    {
      return period;
    }

    /** `setKind(k)`: a value outside PERIODIC..OTHER is refused and the old kind kept. */
    method SetKind(k: int) returns (r: ReturnCode)
      modifies this`kind
      ensures !ValidKind(k) ==> r == BAD_PARAMETER && kind == old(kind)
      ensures ValidKind(k) ==> r == RTC_OK && kind == k
    {
      if k < PERIODIC || k > OTHER {
        return BAD_PARAMETER;
      }
      kind := k;
      return RTC_OK;
    }

    method GetKind() returns (k: int)
      ensures k == kind
    {
      return kind;
    }

    /** `setOwner(comp)`: the caller guarantees a non-nil reference; one that does not narrow is refused. */
    method SetOwner(comp: Component, narrows: Component -> bool) returns (r: ReturnCode)
      modifies this`owner
      ensures !narrows(comp) ==> r == BAD_PARAMETER && owner == old(owner)
      ensures narrows(comp) ==> r == RTC_OK && owner == Some(comp)
    {
      if !narrows(comp) {
        return BAD_PARAMETER;
      }
      owner := Some(comp);
      return RTC_OK;
    }

    /** `addComponent(comp)`: nil is a bad parameter, a failed narrowing an error; otherwise it is appended. */
    method AddComponent(comp: Option<Component>, narrows: Component -> bool) returns (r: ReturnCode)
      modifies this`participants
      ensures comp.None? ==> r == BAD_PARAMETER && participants == old(participants)
      ensures comp.Some? && !narrows(comp.value) ==> r == RTC_ERROR && participants == old(participants)
      ensures comp.Some? && narrows(comp.value) ==> r == RTC_OK && participants == old(participants) + [comp.value]
    {
      if comp.None? {
        return BAD_PARAMETER;
      }
      if !narrows(comp.value) {
        return RTC_ERROR;
      }
      participants := participants + [comp.value];
      return RTC_OK;
    }

    /**
     * `removeComponent(comp)`: nil, or a component not taking part, is a bad
     * parameter; a failed narrowing an error; otherwise its first occurrence
     * is erased.
     */
    method RemoveComponent(comp: Option<Component>, narrows: Component -> bool) returns (r: ReturnCode)
      modifies this`participants
      ensures comp.None? ==> r == BAD_PARAMETER && participants == old(participants)
      ensures comp.Some? && !narrows(comp.value) ==> r == RTC_ERROR && participants == old(participants)
      ensures comp.Some? && narrows(comp.value) && comp.value !in old(participants) ==>
                r == BAD_PARAMETER && participants == old(participants)
      ensures comp.Some? && narrows(comp.value) && comp.value in old(participants) ==>
                r == RTC_OK && participants == RemoveFirst(old(participants), comp.value)
    {
      if comp.None? {
        return BAD_PARAMETER;
      }
      if !narrows(comp.value) {
        return RTC_ERROR;
      }
      var index := FindParticipant(participants, comp.value);
      if index.None? {
        return BAD_PARAMETER;
      }
      participants := participants[..index.value] + participants[index.value + 1..];
      return RTC_OK;
    }

    method GetComponentList() returns (ps: seq<Component>)
      ensures ps == participants
    {
      return participants;
    }
  }
}
