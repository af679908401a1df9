/**
 * The closed status enumeration shared by every data-port layer, and its
 * conversion to a printable name (a constant table indexed by ordinal).
 */
module DataPortStatusModel {
  import opened Common

  /** The fourteen port statuses, in declared order (PORT_OK has ordinal 0). */
  datatype DataPortStatus =
    | PORT_OK
    | PORT_ERROR
    | BUFFER_ERROR
    | BUFFER_FULL
    | BUFFER_EMPTY
    | BUFFER_TIMEOUT
    | SEND_FULL
    | SEND_TIMEOUT
    | RECV_EMPTY
    | RECV_TIMEOUT
    | INVALID_ARGS
    | PRECONDITION_NOT_MET
    | CONNECTION_LOST
    | UNKNOWN_ERROR

  /** Number of enumerators. */
  const StatusCount: nat := 14

  /** The underlying `uint8_t` value of an enumerator. */
  function Ordinal(s: DataPortStatus): (n: nat)
    ensures n < StatusCount
    ensures n == 0 <==> s == PORT_OK
  {
    match s
    case PORT_OK => 0
    case PORT_ERROR => 1
    case BUFFER_ERROR => 2
    case BUFFER_FULL => 3
    case BUFFER_EMPTY => 4
    case BUFFER_TIMEOUT => 5
    case SEND_FULL => 6
    case SEND_TIMEOUT => 7
    case RECV_EMPTY => 8
    case RECV_TIMEOUT => 9
    case INVALID_ARGS => 10
    case PRECONDITION_NOT_MET => 11
    case CONNECTION_LOST => 12
    case UNKNOWN_ERROR => 13
  }

  /** The enumerator with a given ordinal: the inverse of Ordinal. */
  function FromOrdinal(n: nat): (s: DataPortStatus)
    requires n < StatusCount
    ensures Ordinal(s) == n
  {
    [PORT_OK, PORT_ERROR, BUFFER_ERROR, BUFFER_FULL, BUFFER_EMPTY, BUFFER_TIMEOUT,
     SEND_FULL, SEND_TIMEOUT, RECV_EMPTY, RECV_TIMEOUT, INVALID_ARGS,
     PRECONDITION_NOT_MET, CONNECTION_LOST, UNKNOWN_ERROR][n]
  }

  /** Ordinals are distinct: the enumeration has exactly 14 members, numbered 0..13. */
  lemma OrdinalRoundTrip(s: DataPortStatus)
    ensures FromOrdinal(Ordinal(s)) == s
  {
  }

  /** The string table used by toString, one entry per enumerator. */
  const StatusNames: seq<string> := [
    "PORT_OK",
    "PORT_ERROR",
    "BUFFER_ERROR",
    "BUFFER_FULL",
    "BUFFER_EMPTY",
    "BUFFER_TIMEOUT",
    "SEND_FULL",
    "SEND_TIMEOUT",
    "RECV_EMPTY",
    "RECV_TIMEOUT",
    "INVALID_ARGS",
    "PRECONDITION_NOT_MET",
    "CONNECTION_LOST",
    "UNKNOWN_ERROR"
  ]

  /** toString: look the ordinal up in the table; the index is always in bounds. */
  function ToString(s: DataPortStatus): (r: string)
    ensures |StatusNames| == StatusCount
    ensures r == StatusNames[Ordinal(s)]
    ensures |r| > 0
  {
    StatusNames[Ordinal(s)]
  }

  /** The name printed for each enumerator is that enumerator's own name. */
  lemma ToStringNames()
    ensures ToString(PORT_OK) == "PORT_OK" && ToString(PORT_ERROR) == "PORT_ERROR"
    ensures ToString(BUFFER_ERROR) == "BUFFER_ERROR" && ToString(BUFFER_FULL) == "BUFFER_FULL"
    ensures ToString(BUFFER_EMPTY) == "BUFFER_EMPTY" && ToString(BUFFER_TIMEOUT) == "BUFFER_TIMEOUT"
    ensures ToString(SEND_FULL) == "SEND_FULL" && ToString(SEND_TIMEOUT) == "SEND_TIMEOUT"
    ensures ToString(RECV_EMPTY) == "RECV_EMPTY" && ToString(RECV_TIMEOUT) == "RECV_TIMEOUT"
    ensures ToString(INVALID_ARGS) == "INVALID_ARGS"
    ensures ToString(PRECONDITION_NOT_MET) == "PRECONDITION_NOT_MET"
    ensures ToString(CONNECTION_LOST) == "CONNECTION_LOST"
    ensures ToString(UNKNOWN_ERROR) == "UNKNOWN_ERROR"
  {
  }

  /** Parsing a printed name back: the partner of ToString. */
  function FromString(name: string): (r: Option<DataPortStatus>)
    ensures r.Some? <==> name in StatusNames
  {
    if name in StatusNames then Some(FromOrdinal(IndexOf(StatusNames, name))) else None
  }

  /** First position of `x` in `s`. */
  function IndexOf(s: seq<string>, x: string): (i: nat)
    requires x in s
    ensures i < |s| && s[i] == x
    ensures forall j :: 0 <= j < i ==> s[j] != x
  {
    if s[0] == x then 0 else 1 + IndexOf(s[1..], x)
  }

  /** The table entries are pairwise distinct. */
  lemma NamesDistinct()
    ensures forall i, j :: 0 <= i < j < |StatusNames| ==> StatusNames[i] != StatusNames[j]
  {
  }

  /** Printing and parsing round-trip, so toString is injective. */
  lemma {:induction false} ToStringRoundTrip(s: DataPortStatus)
    ensures FromString(ToString(s)) == Some(s)
  {
    NamesDistinct();
    var i := IndexOf(StatusNames, ToString(s));
    assert i == Ordinal(s);
    OrdinalRoundTrip(s);
  }

  lemma ToStringInjective(a: DataPortStatus, b: DataPortStatus)
    ensures ToString(a) == ToString(b) ==> a == b
  {
    ToStringRoundTrip(a);
    ToStringRoundTrip(b);
  }
}
