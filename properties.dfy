/**
 * coil's Properties: a tree of named nodes with ordered children, each
 * holding a value, a default value and a flag saying whether the value was
 * set. Dotted keys name paths in the tree. The tree is modelled as a value;
 * an operation that grows it returns the new tree.
 */
module Properties {
  import opened Common
  import opened StringUtil

  /** One node. `setValue` is the source's `set_value`; `leaf` holds the children in insertion order. */
  datatype Node = Node(name: string, value: string, defaultValue: string, setValue: bool, leaf: seq<Node>)

  /** A node created by `new Properties(k)` during a path walk. */
  function NewNode(name: string): Node
  {
    Node(name, "", "", false, [])
  }

  /** The root of an empty tree. */
  const Empty: Node := NewNode("")

  // ---------------------------------------------------------------------
  // split: dotted keys, honouring escaped delimiters
  // ---------------------------------------------------------------------

  /** Position `p` holds a `delim` that is not escaped. */
  predicate IsDelim(s: string, delim: char, p: nat)
    requires p < |s|
  {
    s[p] == delim && !IsEscaped(s, p)
  }

  /** The positions below `n` that hold an unescaped `delim`, in increasing order. */
  function Delims(s: string, delim: char, n: nat): seq<nat>
    requires n <= |s|
  {
    if n == 0 then []
    else Delims(s, delim, n - 1) + (if IsDelim(s, delim, n - 1) then [n - 1] else [])
  }

  /** The positions Delims lists are below `n` and strictly increasing. */
  lemma {:induction false} DelimsSorted(s: string, delim: char, n: nat)
    requires n <= |s|
    ensures forall i :: 0 <= i < |Delims(s, delim, n)| ==> Delims(s, delim, n)[i] < n
    ensures forall i, j :: 0 <= i < j < |Delims(s, delim, n)| ==> Delims(s, delim, n)[i] < Delims(s, delim, n)[j]
  {
    if n > 0 {
      DelimsSorted(s, delim, n - 1);
      var prev, ps := Delims(s, delim, n - 1), Delims(s, delim, n);
      assert ps == prev + (if IsDelim(s, delim, n - 1) then [n - 1] else []);
      forall i | 0 <= i < |ps|
        ensures ps[i] < n
      {
        if i < |prev| {
          assert ps[i] == prev[i] && prev[i] < n - 1;
        }
      }
      forall i, j | 0 <= i < j < |ps|
        ensures ps[i] < ps[j]
      {
        assert ps[i] == prev[i] && prev[i] < n - 1;
        if j < |prev| {
          assert ps[j] == prev[j] && prev[i] < prev[j];
        }
      }
    }
  }

  /** Delims lists exactly the unescaped delimiters. */
  lemma {:induction false} DelimsExact(s: string, delim: char, n: nat)
    requires n <= |s|
    ensures forall p: nat :: p in Delims(s, delim, n) <==> p < n && IsDelim(s, delim, p)
  {
    if n > 0 {
      DelimsExact(s, delim, n - 1);
      var prev := Delims(s, delim, n - 1);
      var last: seq<nat> := if IsDelim(s, delim, n - 1) then [n - 1] else [];
      assert Delims(s, delim, n) == prev + last;
      forall p: nat
        ensures p in Delims(s, delim, n) <==> p < n && IsDelim(s, delim, p)
      {
        assert p in prev + last <==> p in prev || p in last;
      }
    }
  }

  /**
   * The state of `split`'s scan after the first `n` characters: the pieces
   * completed so far and where the current piece begins.
   */
  function Scan(s: string, delim: char, n: nat): (st: (seq<string>, nat))
    requires n <= |s|
    ensures st.1 <= n
    decreases n
  {
    if n == 0 then ([], 0)
    else
      var prev := Scan(s, delim, n - 1);
      if IsDelim(s, delim, n - 1) then (prev.0 + [s[prev.1..n - 1]], n) else prev
  }

  /**
   * `split(str, delim, value)`: the pieces of `str` between its unescaped
   * delimiters, backslashes kept; none for the empty string.
   */
  function KeySplit(s: string, delim: char): (r: seq<string>)
    ensures s == [] <==> r == []
  {
    if s == [] then []
    else
      var st := Scan(s, delim, |s|);
      st.0 + [s[st.1..]]
  }

  /** The path a dotted key names. */
  function Path(key: string): seq<string>
  {
    KeySplit(key, '.')
  }

  /** `split`'s loop: it appends the pieces to `value` and returns whether the string was non-empty. */
  method Split(s: string, delim: char, value: seq<string>) returns (ok: bool, r: seq<string>)
    ensures ok <==> s != []
    ensures r == value + KeySplit(s, delim)
  {
    if s == [] {
      return false, value;
    }
    var beginPos := 0;
    var endPos := 0;
    r := value;
    while endPos < |s|
      invariant 0 <= endPos <= |s|
      invariant beginPos == Scan(s, delim, endPos).1
      invariant r == value + Scan(s, delim, endPos).0
    {
      if s[endPos] == delim && !IsEscaped(s, endPos) {
        r := r + [s[beginPos..endPos]];
        beginPos := endPos + 1;
      }
      endPos := endPos + 1;
    }
    r := r + [s[beginPos..]];
    return true, r;
  }

  /** There is one piece per unescaped delimiter, plus one. */
  lemma KeySplitCount(s: string, delim: char)
    requires s != []
    ensures |KeySplit(s, delim)| == |Delims(s, delim, |s|)| + 1
  {
    ScanCount(s, delim, |s|);
  }

  lemma {:induction false} ScanCount(s: string, delim: char, n: nat)
    requires n <= |s|
    ensures |Scan(s, delim, n).0| == |Delims(s, delim, n)|
  {
    if n > 0 {
      ScanCount(s, delim, n - 1);
    }
  }

  /** Joining the pieces back with the delimiter gives the key itself. */
  lemma KeySplitRoundTrip(s: string, delim: char)
    requires s != []
    ensures Flatten(KeySplit(s, delim), [delim]) == s
  {
    ScanFlatten(s, delim, |s|, |s|);
    assert s[..|s|] == s;
  }

  lemma {:induction false} ScanFlatten(s: string, delim: char, n: nat, e: nat)
    requires n <= |s| && Scan(s, delim, n).1 <= e <= |s|
    ensures Flatten(Scan(s, delim, n).0 + [s[Scan(s, delim, n).1..e]], [delim]) == s[..e]
    decreases n, 1
  {
    if n > 0 {
      if IsDelim(s, delim, n - 1) {
        ScanFlattenAtDelim(s, delim, n, e);
      } else {
        ScanFlatten(s, delim, n - 1, e);
      }
    } else {
      assert [] + [s[0..e]] == [s[..e]];
    }
  }

  /** The step of ScanFlatten across an unescaped delimiter at n - 1. */
  lemma {:induction false} ScanFlattenAtDelim(s: string, delim: char, n: nat, e: nat)
    requires 0 < n <= e <= |s| && IsDelim(s, delim, n - 1)
    ensures Flatten(Scan(s, delim, n).0 + [s[n..e]], [delim]) == s[..e]
    decreases n, 0
  {
    var prev := Scan(s, delim, n - 1);
    ScanFlatten(s, delim, n - 1, n - 1);
    var c := prev.0 + [s[prev.1..n - 1]];
    assert Scan(s, delim, n).0 == c;
    FlattenSnoc(c, s[n..e], [delim]);
    assert s[..n - 1] + [delim] + s[n..e] == s[..e] by {
      assert s[n - 1] == delim;
    }
  }

  /** A key without dots is a one-element path. */
  lemma PathOfPlainName(k: string)
    requires k != [] && '.' !in k
    ensures Path(k) == [k]
  {
    NoDelimScan(k, '.', |k|);
  }

  lemma {:induction false} NoDelimScan(s: string, delim: char, n: nat)
    requires n <= |s| && delim !in s
    ensures Scan(s, delim, n) == ([], 0)
  {
    if n > 0 {
      NoDelimScan(s, delim, n - 1);
      assert s[n - 1] in s;
    }
  }

  // ---------------------------------------------------------------------
  // Children and path lookup
  // ---------------------------------------------------------------------

  /** Index of the first child named `key`, or `|leaf|` when there is none. */
  function FindChild(leaf: seq<Node>, key: string): (i: nat)
    ensures i <= |leaf|
    ensures forall j :: 0 <= j < i ==> leaf[j].name != key
    ensures i < |leaf| ==> leaf[i].name == key
  {
    if leaf == [] then 0 else if leaf[0].name == key then 0 else 1 + FindChild(leaf[1..], key)
  }

  /** `hasKey`: the first child with that name, if any. */
  function HasKey(n: Node, key: string): (r: Option<Node>)
    ensures r.Some? <==> exists j :: 0 <= j < |n.leaf| && n.leaf[j].name == key
    ensures r.Some? ==> r.value.name == key && r.value == n.leaf[FindChild(n.leaf, key)]
  {
    var i := FindChild(n.leaf, key);
    if i < |n.leaf| then Some(n.leaf[i]) else None
  }

  /** `_getNode` with an empty path meaning the node itself (see the findings on the as-written form). */
  function GetNodeAt(n: Node, keys: seq<string>): (r: Option<Node>)
    ensures keys == [] ==> r == Some(n)
    ensures keys != [] && r.Some? ==> r.value.name == keys[|keys| - 1]
    decreases |keys|
  {
    if keys == [] then Some(n)
    else
      match HasKey(n, keys[0])
      case None => None
      case Some(child) => GetNodeAt(child, keys[1..])
  }

  /** `_getNode(keys, index, curr)` as written: it reads `keys[index]` without checking. */
  function GetNodeAsWritten(n: Node, keys: seq<string>, index: nat): (r: Option<Node>)
    requires index < |keys|
    ensures r.Some? ==> r.value.name == keys[|keys| - 1]
    decreases |keys| - index
  {
    match HasKey(n, keys[index])
    case None => None
    case Some(next) => if index < |keys| - 1 then GetNodeAsWritten(next, keys, index + 1) else Some(next)
  }

  /** For every non-empty path the written lookup and the corrected one agree. */
  lemma {:induction false} GetNodeAsWrittenAgrees(n: Node, keys: seq<string>, index: nat)
    requires index < |keys|
    ensures GetNodeAsWritten(n, keys, index) == GetNodeAt(n, keys[index..])
    decreases |keys| - index
  {
    assert keys[index..][0] == keys[index];
    assert keys[index..][1..] == keys[index + 1..];
    match HasKey(n, keys[index])
    case None =>
    case Some(next) =>
      if index < |keys| - 1 {
        GetNodeAsWrittenAgrees(next, keys, index + 1);
      }
  }

  // ---------------------------------------------------------------------
  // Walking a path and updating its end (setProperty / setDefault)
  // ---------------------------------------------------------------------

  /** What a walk does to the node at the end of its path. */
  datatype Update = AssignValue(v: string) | AssignDefault(d: string)

  function Apply(n: Node, u: Update): Node
  {
    match u
    case AssignValue(v) => n.(value := v, setValue := true)
    case AssignDefault(d) => n.(defaultValue := d)
  }

  /**
   * The path walk of `setProperty`/`setDefault`: reuse the first child with
   * the next name, append a fresh node when there is none, and update the
   * node the path ends at.
   */
  function Walk(n: Node, keys: seq<string>, u: Update): (r: Node)
    ensures r.name == n.name
    ensures keys != [] ==> r.value == n.value && r.defaultValue == n.defaultValue && r.setValue == n.setValue
    decreases |keys|
  {
    if keys == [] then Apply(n, u)
    else
      var i := FindChild(n.leaf, keys[0]);
      if i < |n.leaf| then n.(leaf := n.leaf[i := Walk(n.leaf[i], keys[1..], u)])
      else n.(leaf := n.leaf + [Walk(NewNode(keys[0]), keys[1..], u)])
  }

  /** The node a walk along `keys` ends at, before its update: the existing one, or a fresh one. */
  function Target(n: Node, keys: seq<string>): Node
  {
    match GetNodeAt(n, keys)
    case Some(x) => x
    case None => NewNode(keys[|keys| - 1])
  }

  lemma FindChildUpdate(leaf: seq<Node>, i: nat, w: Node, key: string)
    requires i < |leaf| && w.name == leaf[i].name
    ensures FindChild(leaf[i := w], key) == FindChild(leaf, key)
  {
    assert forall j :: 0 <= j < |leaf| ==> leaf[i := w][j].name == leaf[j].name;
  }

  lemma FindChildAppend(leaf: seq<Node>, w: Node, key: string)
    ensures FindChild(leaf, key) < |leaf| ==> FindChild(leaf + [w], key) == FindChild(leaf, key)
    ensures FindChild(leaf, key) == |leaf| && w.name == key ==> FindChild(leaf + [w], key) == |leaf|
    ensures FindChild(leaf, key) == |leaf| && w.name != key ==> FindChild(leaf + [w], key) == |leaf| + 1
  {
    assert forall j :: 0 <= j < |leaf| ==> (leaf + [w])[j] == leaf[j];
    assert (leaf + [w])[|leaf|] == w;
  }

  /** The walk's step through an existing child, given that the walk below it reaches its target. */
  lemma WalkReachesExisting(n: Node, keys: seq<string>, u: Update)
    requires keys != [] && FindChild(n.leaf, keys[0]) < |n.leaf|
    requires var c := n.leaf[FindChild(n.leaf, keys[0])];
             GetNodeAt(Walk(c, keys[1..], u), keys[1..]) == Some(Apply(Target(c, keys[1..]), u))
    ensures GetNodeAt(Walk(n, keys, u), keys) == Some(Apply(Target(n, keys), u))
  {
    var k, rest := keys[0], keys[1..];
    var i := FindChild(n.leaf, k);
    var c := n.leaf[i];
    LookupAfterReplace(n, i, Walk(c, rest, u), keys);
    if rest != [] {
      assert keys[|keys| - 1] == rest[|rest| - 1];
    }
  }

  /** The walk's step through a fresh child, given that the walk below it reaches its target. */
  lemma WalkReachesFresh(n: Node, keys: seq<string>, u: Update)
    requires keys != [] && FindChild(n.leaf, keys[0]) == |n.leaf|
    requires var c := NewNode(keys[0]);
             GetNodeAt(Walk(c, keys[1..], u), keys[1..]) == Some(Apply(Target(c, keys[1..]), u))
    ensures GetNodeAt(Walk(n, keys, u), keys) == Some(Apply(Target(n, keys), u))
  {
    var k, rest := keys[0], keys[1..];
    var c := NewNode(k);
    LookupAfterAppend(n, Walk(c, rest, u), keys);
    if rest != [] {
      assert HasKey(c, rest[0]) == None;
      assert keys[|keys| - 1] == rest[|rest| - 1];
    }
  }

  /** A walk ends at its target, updated. */
  lemma {:induction false} WalkReaches(n: Node, keys: seq<string>, u: Update)
    ensures GetNodeAt(Walk(n, keys, u), keys) == Some(Apply(Target(n, keys), u))
    decreases |keys|
  {
    if keys != [] {
      var i := FindChild(n.leaf, keys[0]);
      if i < |n.leaf| {
        WalkReaches(n.leaf[i], keys[1..], u);
        WalkReachesExisting(n, keys, u);
      } else {
        WalkReaches(NewNode(keys[0]), keys[1..], u);
        WalkReachesFresh(n, keys, u);
      }
    }
  }

  /** Walking the same path twice builds no second copy of it: the second walk supersedes the first. */
  lemma {:induction false} WalkTwice(n: Node, keys: seq<string>, v1: string, v2: string)
    ensures Walk(Walk(n, keys, AssignValue(v1)), keys, AssignValue(v2)) == Walk(n, keys, AssignValue(v2))
    decreases |keys|
  {
    if keys != [] {
      var k := keys[0];
      var rest := keys[1..];
      var i := FindChild(n.leaf, k);
      if i < |n.leaf| {
        var c := n.leaf[i];
        WalkTwice(c, rest, v1, v2);
        FindChildUpdate(n.leaf, i, Walk(c, rest, AssignValue(v1)), k);
        assert n.leaf[i := Walk(c, rest, AssignValue(v1))][i := Walk(Walk(c, rest, AssignValue(v1)), rest, AssignValue(v2))]
            == n.leaf[i := Walk(c, rest, AssignValue(v2))];
      } else {
        var c := NewNode(k);
        WalkTwice(c, rest, v1, v2);
        FindChildAppend(n.leaf, Walk(c, rest, AssignValue(v1)), k);
        var l1 := n.leaf + [Walk(c, rest, AssignValue(v1))];
        assert l1[|n.leaf| := Walk(Walk(c, rest, AssignValue(v1)), rest, AssignValue(v2))]
            == n.leaf + [Walk(c, rest, AssignValue(v2))];
      }
    }
  }

  /** A default-value walk never changes the value or the set flag of any node that already existed. */
  lemma {:induction false} DefaultWalkKeepsValues(n: Node, keys: seq<string>, d: string, p: seq<string>)
    requires GetNodeAt(n, p).Some?
    ensures GetNodeAt(Walk(n, keys, AssignDefault(d)), p).Some?
    ensures GetNodeAt(Walk(n, keys, AssignDefault(d)), p).value.value == GetNodeAt(n, p).value.value
    ensures GetNodeAt(Walk(n, keys, AssignDefault(d)), p).value.setValue == GetNodeAt(n, p).value.setValue
    decreases |keys|
  {
    var u := AssignDefault(d);
    var w := Walk(n, keys, u);
    if p != [] && keys != [] {
      var i := FindChild(n.leaf, keys[0]);
      var j := FindChild(n.leaf, p[0]);
      var c := n.leaf[j];
      assert GetNodeAt(n, p) == GetNodeAt(c, p[1..]);
      if i < |n.leaf| {
        FindChildUpdate(n.leaf, i, Walk(n.leaf[i], keys[1..], u), p[0]);
        if i == j {
          DefaultWalkKeepsValues(c, keys[1..], d, p[1..]);
        }
        assert GetNodeAt(w, p) == GetNodeAt(w.leaf[j], p[1..]);
      } else {
        FindChildAppend(n.leaf, Walk(NewNode(keys[0]), keys[1..], u), p[0]);
        assert w.leaf[j] == c;
        assert GetNodeAt(w, p) == GetNodeAt(c, p[1..]);
      }
    } else if p != [] {
      assert w.leaf == n.leaf;
      assert GetNodeAt(w, p) == GetNodeAt(n, p) by {
        assert HasKey(w, p[0]) == HasKey(n, p[0]);
      }
    }
  }

  /** What a lookup along a path reads: the getProperty answer and the getDefault answer. */
  function Reading(o: Option<Node>): (string, string)
  {
    match o
    case None => ("", "")
    case Some(x) => (if x.setValue then x.value else x.defaultValue, x.defaultValue)
  }

  /**
   * Replacing the first child with a given name by a node of the same name:
   * lookups through that name go on in the new child, all others are unchanged.
   */
  lemma LookupAfterReplace(n: Node, i: nat, x: Node, p: seq<string>)
    requires i < |n.leaf| && x.name == n.leaf[i].name && FindChild(n.leaf, x.name) == i && p != []
    ensures p[0] != x.name ==> GetNodeAt(n.(leaf := n.leaf[i := x]), p) == GetNodeAt(n, p)
    ensures p[0] == x.name ==> GetNodeAt(n.(leaf := n.leaf[i := x]), p) == GetNodeAt(x, p[1..])
    ensures p[0] == x.name ==> GetNodeAt(n, p) == GetNodeAt(n.leaf[i], p[1..])
  {
    var m := n.(leaf := n.leaf[i := x]);
    FindChildUpdate(n.leaf, i, x, p[0]);
    var j := FindChild(n.leaf, p[0]);
    if j < |n.leaf| && j != i {
      assert m.leaf[j] == n.leaf[j];
    }
    assert HasKey(m, p[0]) == (if p[0] == x.name then Some(x) else HasKey(n, p[0]));
  }

  /**
   * Appending a child whose name no child has yet: lookups through that
   * name go on in the new child, where they found nothing before; all
   * others are unchanged.
   */
  lemma LookupAfterAppend(n: Node, x: Node, p: seq<string>)
    requires FindChild(n.leaf, x.name) == |n.leaf| && p != []
    ensures p[0] != x.name ==> GetNodeAt(n.(leaf := n.leaf + [x]), p) == GetNodeAt(n, p)
    ensures p[0] == x.name ==> GetNodeAt(n.(leaf := n.leaf + [x]), p) == GetNodeAt(x, p[1..])
    ensures p[0] == x.name ==> GetNodeAt(n, p) == None
  {
    var m := n.(leaf := n.leaf + [x]);
    FindChildAppend(n.leaf, x, p[0]);
    var j := FindChild(n.leaf, p[0]);
    if j < |n.leaf| {
      assert m.leaf[j] == n.leaf[j];
    }
    assert HasKey(m, p[0]) == (if p[0] == x.name then Some(x) else HasKey(n, p[0]));
  }

  /** The walk's step through an existing child, given that the walk below it keeps what `p[1..]` reads. */
  lemma ValueWalkKeepsOthersExisting(n: Node, keys: seq<string>, v: string, p: seq<string>)
    requires keys != [] && p != [] && FindChild(n.leaf, keys[0]) < |n.leaf|
    requires var i := FindChild(n.leaf, keys[0]);
             p[0] == keys[0] ==>
               Reading(GetNodeAt(Walk(n.leaf[i], keys[1..], AssignValue(v)), p[1..])) == Reading(GetNodeAt(n.leaf[i], p[1..]))
    ensures Reading(GetNodeAt(Walk(n, keys, AssignValue(v)), p)) == Reading(GetNodeAt(n, p))
  {
    var i := FindChild(n.leaf, keys[0]);
    LookupAfterReplace(n, i, Walk(n.leaf[i], keys[1..], AssignValue(v)), p);
  }

  /** The walk's step through a fresh child, given that the walk below it keeps what `p[1..]` reads. */
  lemma ValueWalkKeepsOthersFresh(n: Node, keys: seq<string>, v: string, p: seq<string>)
    requires keys != [] && p != [] && FindChild(n.leaf, keys[0]) == |n.leaf|
    requires var c := NewNode(keys[0]);
             p[0] == keys[0] ==>
               Reading(GetNodeAt(Walk(c, keys[1..], AssignValue(v)), p[1..])) == Reading(GetNodeAt(c, p[1..]))
    ensures Reading(GetNodeAt(Walk(n, keys, AssignValue(v)), p)) == Reading(GetNodeAt(n, p))
  {
    var c := NewNode(keys[0]);
    LookupAfterAppend(n, Walk(c, keys[1..], AssignValue(v)), p);
    if p[0] == keys[0] && p[1..] != [] {
      assert HasKey(c, p[1..][0]).None?;
    }
  }

  /**
   * A value walk changes what a lookup reads only at the end of its own
   * path: the nodes it passes keep their fields, and the nodes it creates
   * read "" as an absent node does.
   */
  lemma {:induction false} ValueWalkKeepsOthers(n: Node, keys: seq<string>, v: string, p: seq<string>)
    requires p != keys
    ensures Reading(GetNodeAt(Walk(n, keys, AssignValue(v)), p)) == Reading(GetNodeAt(n, p))
    decreases |keys|
  {
    if p != [] && keys == [] {
      var w := Walk(n, keys, AssignValue(v));
      assert HasKey(w, p[0]) == HasKey(n, p[0]);
    } else if p != [] {
      var i := FindChild(n.leaf, keys[0]);
      if i < |n.leaf| {
        if p[0] == keys[0] {
          ValueWalkKeepsOthers(n.leaf[i], keys[1..], v, p[1..]);
        }
        ValueWalkKeepsOthersExisting(n, keys, v, p);
      } else {
        if p[0] == keys[0] {
          ValueWalkKeepsOthers(NewNode(keys[0]), keys[1..], v, p[1..]);
        }
        ValueWalkKeepsOthersFresh(n, keys, v, p);
      }
    }
  }

  // ---------------------------------------------------------------------
  // The public operations
  // ---------------------------------------------------------------------

  /** `setProperty(key, value)`: the new tree and the previous value of the node the key names. */
  function SetProperty(t: Node, key: string, v: string): (r: (Node, string))
    ensures r.1 == Target(t, Path(key)).value
  {
    (Walk(t, Path(key), AssignValue(v)), Target(t, Path(key)).value)
  }

  /** `setDefault(key, value)`: the named node, found or created, ends up with default `d` and nothing else changed. */
  function SetDefault(t: Node, key: string, d: string): (r: Node)
    ensures GetNodeAt(r, Path(key)) == Some(Target(t, Path(key)).(defaultValue := d))
  {
    WalkReaches(t, Path(key), AssignDefault(d));
    Walk(t, Path(key), AssignDefault(d))
  }

  /** `getProperty(key)`: the value if one was set, otherwise the default; "" for an absent key. */
  function GetProperty(t: Node, key: string): (r: string)
    ensures GetNodeAt(t, Path(key)).None? ==> r == ""
    ensures GetNodeAt(t, Path(key)).Some? && GetNodeAt(t, Path(key)).value.setValue ==> r == GetNodeAt(t, Path(key)).value.value
    ensures GetNodeAt(t, Path(key)).Some? && !GetNodeAt(t, Path(key)).value.setValue ==> r == GetNodeAt(t, Path(key)).value.defaultValue
  {
    match GetNodeAt(t, Path(key))
    case None => ""
    case Some(n) => if n.setValue then n.value else n.defaultValue
  }

  /** `getProperty(key, def)`: `def` exactly when the one-argument lookup gives "". */
  function GetPropertyOr(t: Node, key: string, def: string): (r: string)
    ensures GetProperty(t, key) == "" ==> r == def
    ensures GetProperty(t, key) != "" ==> r == GetProperty(t, key)
  {
    var v := GetProperty(t, key);
    if v == "" then def else v
  }

  /** `getDefault(key)`: the default value of the named node; "" for an absent key. */
  function GetDefault(t: Node, key: string): (r: string)
    ensures GetNodeAt(t, Path(key)).Some? ==> r == GetNodeAt(t, Path(key)).value.defaultValue
    ensures GetNodeAt(t, Path(key)).None? ==> r == ""
  {
    match GetNodeAt(t, Path(key))
    case None => ""
    case Some(n) => n.defaultValue
  }

  /** `getProperty(key)` as written: only defined when the key has at least one piece. */
  function GetPropertyAsWritten(t: Node, key: string): (r: string)
    requires key != []
    ensures r != "" ==> GetNodeAsWritten(t, Path(key), 0).Some?
  {
    match GetNodeAsWritten(t, Path(key), 0)
    case None => ""
    case Some(n) => if n.setValue then n.value else n.defaultValue
  }

  /** The empty key: `setProperty("")` stores a value in the root, which the as-written lookup cannot reach. */
  lemma EmptyKeyLookupAsWritten(v: string)
    ensures Path("") == []
    ensures var t := SetProperty(Empty, "", v).0; t.value == v && t.setValue && t.leaf == []
  {
  }

  /** For non-empty keys the corrected lookup is the written one. */
  lemma GetPropertyAsWrittenAgrees(t: Node, key: string)
    requires key != []
    ensures GetPropertyAsWritten(t, key) == GetProperty(t, key)
  {
    GetNodeAsWrittenAgrees(t, Path(key), 0);
    assert Path(key)[0..] == Path(key);
  }

  /** A property reads back as what was set, for every key (the empty key included). */
  lemma SetThenGet(t: Node, key: string, v: string)
    ensures GetProperty(SetProperty(t, key, v).0, key) == v
  {
    WalkReaches(t, Path(key), AssignValue(v));
  }

  /** Setting a key twice is setting it once with the second value: no node is duplicated. */
  lemma SetTwice(t: Node, key: string, v1: string, v2: string)
    ensures SetProperty(SetProperty(t, key, v1).0, key, v2).0 == SetProperty(t, key, v2).0
  {
    WalkTwice(t, Path(key), v1, v2);
  }

  /** Distinct keys name distinct paths. */
  lemma PathInjective(k: string, k2: string)
    requires k != k2
    ensures Path(k) != Path(k2)
  {
    if k != [] && k2 != [] {
      KeySplitRoundTrip(k, '.');
      KeySplitRoundTrip(k2, '.');
    }
  }

  /** Setting one key leaves what every other key reads, through getProperty and getDefault, unchanged. */
  lemma SetKeepsOtherKeys(t: Node, k: string, k2: string, v: string)
    requires k2 != k
    ensures GetProperty(SetProperty(t, k, v).0, k2) == GetProperty(t, k2)
    ensures GetDefault(SetProperty(t, k, v).0, k2) == GetDefault(t, k2)
  {
    PathInjective(k, k2);
    ValueWalkKeepsOthers(t, Path(k), v, Path(k2));
  }

  /** A default reads back through getDefault. */
  lemma SetDefaultThenGetDefault(t: Node, key: string, d: string)
    ensures GetDefault(SetDefault(t, key, d), key) == d
  {
    WalkReaches(t, Path(key), AssignDefault(d));
  }

  /** A default on a key never set makes getProperty return that default. */
  lemma SetDefaultThenGet(t: Node, key: string, d: string)
    requires GetNodeAt(t, Path(key)).None? || !GetNodeAt(t, Path(key)).value.setValue
    ensures GetProperty(SetDefault(t, key, d), key) == d
  {
    WalkReaches(t, Path(key), AssignDefault(d));
  }

  /** setDefault leaves every value that was set, so getProperty of a set key is unchanged. */
  lemma SetDefaultKeepsSetValues(t: Node, key: string, d: string, other: string)
    requires GetNodeAt(t, Path(other)).Some? && GetNodeAt(t, Path(other)).value.setValue
    ensures GetProperty(SetDefault(t, key, d), other) == GetProperty(t, other)
  {
    DefaultWalkKeepsValues(t, Path(key), d, Path(other));
  }

  /** `findNode(key)`: no node for the empty key; otherwise the node the path names. */
  function FindNode(t: Node, key: string): (r: Option<Node>)
    ensures key == [] ==> r.None?
    ensures key != [] ==> r == GetNodeAt(t, Path(key))
  {
    if key == [] then None else GetNodeAt(t, Path(key))
  }

  /** `createNode(key)`: false for the empty key or one already present; otherwise the node is made, with value "". */
  function CreateNode(t: Node, key: string): (r: (Node, bool))
    ensures !r.1 <==> key == [] || FindNode(t, key).Some?
    ensures !r.1 ==> r.0 == t
  {
    if key == [] || FindNode(t, key).Some? then (t, false)
    else (SetProperty(SetProperty(t, key, GetProperty(t, key)).0, key, "").0, true)
  }

  /** After a successful createNode the key is found, with an empty set value. */
  lemma CreateNodeThenFind(t: Node, key: string)
    requires CreateNode(t, key).1
    ensures FindNode(CreateNode(t, key).0, key).Some?
    ensures GetProperty(CreateNode(t, key).0, key) == ""
  {
    var t1 := SetProperty(t, key, GetProperty(t, key)).0;
    SetThenGet(t1, key, "");
    WalkReaches(t1, Path(key), AssignValue(""));
  }

  /** `getNode(key)`: the root for the empty key, the existing node, or a node created for it. */
  function GetNode(t: Node, key: string): (r: (Node, Node))
    ensures key == [] ==> r == (t, t)
    ensures FindNode(t, key).Some? ==> r == (t, FindNode(t, key).value)
    ensures key != [] ==> GetNodeAt(r.0, Path(key)) == Some(r.1)
  {
    if key == [] then (t, t)
    else match FindNode(t, key)
      case Some(n) => (t, n)
      case None =>
        var t1 := CreateNode(t, key).0;
        CreateNodeThenFind(t, key);
        (t1, FindNode(t1, key).value)
  }

  /** `removeNode(name)`: detach the first child with that name and hand it back; nothing when there is none. */
  function RemoveNode(t: Node, name: string): (r: (Node, Option<Node>))
    ensures HasKey(t, name).None? <==> r.1.None?
    ensures r.1.None? ==> r.0 == t
    ensures r.1.Some? ==> var i := FindChild(t.leaf, name);
              r.1.value == t.leaf[i] && r.0 == t.(leaf := t.leaf[..i] + t.leaf[i + 1..])
  {
    var i := FindChild(t.leaf, name);
    if i < |t.leaf| then (t.(leaf := t.leaf[..i] + t.leaf[i + 1..]), Some(t.leaf[i])) else (t, None)
  }

  // ---------------------------------------------------------------------
  // Property names
  // ---------------------------------------------------------------------

  /** `_propertyNames(names, cur, n)`: the dotted names of the leaf nodes under `n`, depth first. */
  function Names(n: Node, cur: string): (r: seq<string>)
    ensures |r| >= 1
    decreases n, 1
  {
    if n.leaf == [] then [cur] else NamesFrom(n, cur, 0)
  }

  function NamesFrom(n: Node, cur: string, i: nat): (r: seq<string>)
    requires i <= |n.leaf|
    ensures i < |n.leaf| ==> |r| >= 1
    decreases n, 0, |n.leaf| - i
  {
    if i == |n.leaf| then []
    else Names(n.leaf[i], cur + "." + n.leaf[i].name) + NamesFrom(n, cur, i + 1)
  }

  /** `propertyNames()`: each child of the root contributes its leaves, in insertion order. */
  function PropertyNames(t: Node): (r: seq<string>)
    ensures |r| >= |t.leaf|
  {
    TopNames(t.leaf)
  }

  function TopNames(leaf: seq<Node>): (r: seq<string>)
    ensures |r| >= |leaf|
  {
    if leaf == [] then [] else Names(leaf[0], leaf[0].name) + TopNames(leaf[1..])
  }

  /** `size()`: the number of property names. */
  function Size(t: Node): (n: nat)
    ensures n == |PropertyNames(t)|
    ensures t.leaf != [] ==> n >= 1
  {
    |PropertyNames(t)|
  }

  /** The names below a freshly built chain of nodes: the one dotted path. */
  lemma {:induction false} ChainNames(k: string, rest: seq<string>, v: string, cur: string)
    ensures Names(Walk(NewNode(k), rest, AssignValue(v)), cur) == [Flatten([cur] + rest, ".")]
    decreases |rest|
  {
    if rest != [] {
      var c := Walk(NewNode(rest[0]), rest[1..], AssignValue(v));
      var w := Walk(NewNode(k), rest, AssignValue(v));
      assert w.leaf == [c];
      ChainNames(rest[0], rest[1..], v, cur + "." + rest[0]);
      assert NamesFrom(w, cur, 1) == [];
      assert Names(w, cur) == Names(c, cur + "." + rest[0]);
      ChainFlatten(cur, rest);
    }
  }

  lemma ChainFlatten(cur: string, rest: seq<string>)
    requires rest != []
    ensures Flatten([cur + "." + rest[0]] + rest[1..], ".") == Flatten([cur] + rest, ".")
  {
    var a := [cur] + rest;
    assert a[1..] == rest;
    if |rest| == 1 {
      assert [cur + "." + rest[0]] + rest[1..] == [cur + "." + rest[0]];
    } else {
      var b := [cur + "." + rest[0]] + rest[1..];
      assert b[1..] == rest[1..];
      assert Flatten(rest, ".") == rest[0] + "." + Flatten(rest[1..], ".");
    }
  }

  /** Replacing child i by a node that lists the same names leaves the names under `n` alone. */
  lemma {:induction false} NamesFromReplace(n: Node, m: Node, cur: string, i: int, j: nat)
    requires |m.leaf| == |n.leaf| && j <= |n.leaf|
    requires forall q :: 0 <= q < |n.leaf| && q != i ==> m.leaf[q] == n.leaf[q]
    requires 0 <= i < |n.leaf| ==>
               (m.leaf[i].name == n.leaf[i].name
                && Names(m.leaf[i], cur + "." + n.leaf[i].name) == Names(n.leaf[i], cur + "." + n.leaf[i].name))
    ensures NamesFrom(m, cur, j) == NamesFrom(n, cur, j)
    decreases |n.leaf| - j
  {
    if j < |n.leaf| {
      NamesFromReplace(n, m, cur, i, j + 1);
    }
  }

  /** The same for the children of the root. */
  lemma {:induction false} TopNamesReplace(leaf: seq<Node>, leaf2: seq<Node>, i: int)
    requires |leaf2| == |leaf|
    requires forall q :: 0 <= q < |leaf| && q != i ==> leaf2[q] == leaf[q]
    requires 0 <= i < |leaf| ==> leaf2[i].name == leaf[i].name && Names(leaf2[i], leaf[i].name) == Names(leaf[i], leaf[i].name)
    ensures TopNames(leaf2) == TopNames(leaf)
    decreases |leaf|
  {
    if leaf != [] {
      TopNamesReplace(leaf[1..], leaf2[1..], i - 1);
    }
  }

  lemma {:induction false} TopNamesAppend(leaf: seq<Node>, x: Node)
    ensures TopNames(leaf + [x]) == TopNames(leaf) + Names(x, x.name)
    decreases |leaf|
  {
    if leaf == [] {
      assert [x][1..] == [];
    } else {
      assert (leaf + [x])[1..] == leaf[1..] + [x];
      TopNamesAppend(leaf[1..], x);
    }
  }

  /** A walk along a path that already exists creates no node, so the names below are the same. */
  lemma {:induction false} ExistingWalkKeepsNames(n: Node, keys: seq<string>, u: Update, cur: string)
    requires GetNodeAt(n, keys).Some?
    ensures Names(Walk(n, keys, u), cur) == Names(n, cur)
    decreases |keys|
  {
    var w := Walk(n, keys, u);
    if keys == [] {
      if n.leaf != [] {
        NamesFromReplace(n, w, cur, -1, 0);
      }
    } else {
      var i := FindChild(n.leaf, keys[0]);
      var c := n.leaf[i];
      ExistingWalkKeepsNames(c, keys[1..], u, cur + "." + c.name);
      NamesFromReplace(n, w, cur, i, 0);
    }
  }

  /** Setting a value, or a default, on a key that already names a node leaves the property names as they were. */
  lemma SetExistingKeepsNames(t: Node, k: string, v: string)
    requires GetNodeAt(t, Path(k)).Some?
    ensures PropertyNames(SetProperty(t, k, v).0) == PropertyNames(t)
    ensures PropertyNames(SetDefault(t, k, v)) == PropertyNames(t)
  {
    var ks := Path(k);
    if ks != [] {
      var i := FindChild(t.leaf, ks[0]);
      var c := t.leaf[i];
      ExistingWalkKeepsNames(c, ks[1..], AssignValue(v), c.name);
      TopNamesReplace(t.leaf, Walk(t, ks, AssignValue(v)).leaf, i);
      ExistingWalkKeepsNames(c, ks[1..], AssignDefault(v), c.name);
      TopNamesReplace(t.leaf, Walk(t, ks, AssignDefault(v)).leaf, i);
    }
  }

  /** Setting a key whose first piece names no child of the root appends exactly that key to the property names. */
  lemma SetFreshKeyAppendsName(t: Node, k: string, v: string)
    requires k != [] && HasKey(t, Path(k)[0]).None?
    ensures PropertyNames(SetProperty(t, k, v).0) == PropertyNames(t) + [k]
    ensures Size(SetProperty(t, k, v).0) == Size(t) + 1
  {
    var ks := Path(k);
    var x := Walk(NewNode(ks[0]), ks[1..], AssignValue(v));
    assert SetProperty(t, k, v).0.leaf == t.leaf + [x];
    TopNamesAppend(t.leaf, x);
    ChainNames(ks[0], ks[1..], v, ks[0]);
    assert [ks[0]] + ks[1..] == ks;
    KeySplitRoundTrip(k, '.');
  }

  /** Setting one key in an empty tree leaves exactly that key as its only property name. */
  lemma SingleKeyNames(key: string, v: string)
    requires key != []
    ensures PropertyNames(SetProperty(Empty, key, v).0) == [key]
    ensures Size(SetProperty(Empty, key, v).0) == 1
  {
    SetFreshKeyAppendsName(Empty, key, v);
  }

  // ---------------------------------------------------------------------
  // Key/value lines
  // ---------------------------------------------------------------------

  predicate IsSeparator(c: char)
  {
    c == ':' || c == '='
  }

  /** The first unescaped position at or after `from` whose character `sep` accepts (a separator, or a space). */
  function FirstUnescaped(s: string, space: bool, from: nat): (r: Option<nat>)
    requires from <= |s|
    ensures r.Some? ==> from <= r.value < |s| && Hit(s, space, r.value)
    ensures forall i :: from <= i < (if r.Some? then r.value else |s|) ==> !Hit(s, space, i)
    decreases |s| - from
  {
    if from == |s| then None
    else if Hit(s, space, from) then Some(from)
    else FirstUnescaped(s, space, from + 1)
  }

  /** Position `i` holds an unescaped ':' or '=' (or, for the space pass, an unescaped ' '). */
  predicate Hit(s: string, space: bool, i: nat)
    requires i < |s|
  {
    (if space then s[i] == ' ' else IsSeparator(s[i])) && !IsEscaped(s, i)
  }

  /**
   * `splitKeyValue`: split at the first unescaped ':' or '='; failing that,
   * at the first unescaped space; failing that, the whole string is the key.
   * Both halves are trimmed in the first two cases.
   */
  function KeyValue(s: string): (kv: (string, string))
    ensures FirstUnescaped(s, false, 0).Some? ==> kv == SplitAt(s, FirstUnescaped(s, false, 0).value)
    ensures FirstUnescaped(s, false, 0).None? && FirstUnescaped(s, true, 0).Some? ==> kv == SplitAt(s, FirstUnescaped(s, true, 0).value)
    ensures FirstUnescaped(s, false, 0).None? && FirstUnescaped(s, true, 0).None? ==> kv == (s, "")
  {
    match FirstUnescaped(s, false, 0)
    case Some(i) => SplitAt(s, i)
    case None =>
      match FirstUnescaped(s, true, 0)
      case Some(i) => SplitAt(s, i)
      case None => (s, "")
  }

  /** The trimmed text before and after position `i`. */
  function SplitAt(s: string, i: nat): (string, string)
    requires i < |s|
  {
    (EraseBothEndsBlank(s[..i]), EraseBothEndsBlank(s[i + 1..]))
  }

  /** `splitKeyValue`'s two index loops. */
  method SplitKeyValue(s: string) returns (key: string, value: string)
    ensures (key, value) == KeyValue(s)
  {
    var i := 0;
    while i < |s|
      invariant 0 <= i <= |s|
      invariant FirstUnescaped(s, false, 0) == FirstUnescaped(s, false, i)
    {
      if IsSeparator(s[i]) && !IsEscaped(s, i) {
        key, value := SplitAt(s, i).0, SplitAt(s, i).1;
        return;
      }
      i := i + 1;
    }
    i := 0;
    while i < |s|
      invariant 0 <= i <= |s|
      invariant FirstUnescaped(s, true, 0) == FirstUnescaped(s, true, i)
    {
      if s[i] == ' ' && !IsEscaped(s, i) {
        key, value := SplitAt(s, i).0, SplitAt(s, i).1;
        return;
      }
      i := i + 1;
    }
    return s, "";
  }

  /** A line with a plain key, a ':' or '=' and a value splits at that separator. */
  lemma KeyValueAtSeparator(k: string, sep: char, v: string)
    requires IsSeparator(sep)
    requires forall i :: 0 <= i < |k| ==> !IsSeparator(k[i]) && k[i] != Backslash
    ensures KeyValue(k + [sep] + v) == (EraseBothEndsBlank(k), EraseBothEndsBlank(v))
  {
    var s := k + [sep] + v;
    assert BackslashRun(s, |k|) == 0 by {
      if |k| > 0 { assert s[|k| - 1] == k[|k| - 1]; }
    }
    assert Hit(s, false, |k|);
    forall i | 0 <= i < |k|
      ensures !Hit(s, false, i)
    {
      assert s[i] == k[i];
    }
    assert s[..|k|] == k && s[|k| + 1..] == v;
  }

  // ---------------------------------------------------------------------
  // load and setDefaults
  // ---------------------------------------------------------------------

  /** The line is skipped: empty after head blanks, or a '#' or '!' comment. */
  predicate IsSkipped(tmp: string)
  {
    tmp == [] || tmp[0] == '#' || tmp[0] == '!'
  }

  /** The line ends in an unescaped backslash and so continues on the next line. */
  predicate Continues(tmp: string)
  {
    tmp != [] && tmp[|tmp| - 1] == Backslash && !IsEscaped(tmp, |tmp| - 1)
  }

  /** Store one complete logical line. */
  function StoreLine(t: Node, pline: string): Node
  {
    var kv := KeyValue(pline);
    SetProperty(t, EraseBothEndsBlank(Unescape(kv.0)), EraseBothEndsBlank(Unescape(kv.1))).0
  }

  /**
   * What `load` does with one physical line, given the tree so far and the
   * pending continued line: skip it, extend the pending line, or store the
   * completed logical line.
   */
  function LoadStep(t: Node, pline: string, line: string): (Node, string)
  {
    var tmp := EraseHeadBlank(line);
    if IsSkipped(tmp) then (t, pline)
    else if Continues(tmp) then (t, pline + tmp[..|tmp| - 1])
    else (StoreLine(t, pline + tmp), "")
  }

  /** Every line is a comment or blank. */
  predicate AllSkipped(lines: seq<string>)
  {
    forall i :: 0 <= i < |lines| ==> IsSkipped(EraseHeadBlank(lines[i]))
  }

  /** `load` over a list of lines; a continuation still pending after the last line is dropped. */
  function LoadLines(t: Node, lines: seq<string>, pline: string): (r: Node)
    ensures AllSkipped(lines) ==> r == t
    decreases |lines|
  {
    if lines == [] then t
    else
      var next := LoadStep(t, pline, lines[0]);
      LoadLines(next.0, lines[1..], next.1)
  }

  /** One physical line taken off the front of the remaining lines. */
  lemma LoadLinesUnfold(t: Node, lines: seq<string>, i: nat, pline: string)
    requires i < |lines|
    ensures var next := LoadStep(t, pline, lines[i]);
            LoadLines(t, lines[i..], pline) == LoadLines(next.0, lines[i + 1..], next.1)
  {
    assert lines[i..][0] == lines[i] && lines[i..][1..] == lines[i + 1..];
  }

  /** `load`, reading from a list of lines. */
  method Load(t: Node, lines: seq<string>) returns (r: Node)
    ensures r == LoadLines(t, lines, "")
  {
    var pline := "";
    r := t;
    for i := 0 to |lines|
      invariant LoadLines(t, lines, "") == LoadLines(r, lines[i..], pline)
    {
      LoadLinesUnfold(r, lines, i, pline);
      ghost var next := LoadStep(r, pline, lines[i]);
      var tmp := EraseHeadBlank(lines[i]);
      if IsSkipped(tmp) {
        // a comment or an empty line
      } else if Continues(tmp) {
        pline := pline + tmp[..|tmp| - 1];
      } else {
        pline := pline + tmp;
        var key, value := SplitKeyValue(pline);
        r := SetProperty(r, EraseBothEndsBlank(Unescape(key)), EraseBothEndsBlank(Unescape(value))).0;
        pline := "";
      }
      assert (r, pline) == next;
    }
  }

  /** Comment lines change nothing. */
  lemma LoadSkipsComments(t: Node, c: string, rest: seq<string>)
    requires c != [] && (c[0] == '#' || c[0] == '!')
    ensures LoadLines(t, [c] + rest, "") == LoadLines(t, rest, "")
  {
    NoHeadBlankIsFixed(c);
    assert ([c] + rest)[1..] == rest;
  }

  /** A line that ends in an unescaped backslash is held back, without it. */
  lemma StepContinues(t: Node, pline: string, a: string)
    requires a != [] && !IsBlank(a[0]) && a[0] != '#' && a[0] != '!'
    requires a[|a| - 1] != Backslash
    ensures LoadStep(t, pline, a + "\\") == (t, pline + a)
  {
    var l := a + "\\";
    assert l[0] == a[0];
    NoHeadBlankIsFixed(l);
    assert l[|l| - 2] == a[|a| - 1];
    assert BackslashRun(l, |l| - 1) == 0;
    assert Continues(l);
    assert l[..|l| - 1] == a;
  }

  /** A line that neither is skipped nor continues completes the pending line. */
  lemma StepStores(t: Node, pline: string, b: string)
    requires b != [] && !IsBlank(b[0]) && b[0] != '#' && b[0] != '!'
    requires b[|b| - 1] != Backslash
    ensures LoadStep(t, pline, b) == (StoreLine(t, pline + b), "")
  {
    NoHeadBlankIsFixed(b);
  }

  /** A continued line is joined with the next line before it is stored. */
  lemma LoadJoinsContinuation(t: Node, a: string, b: string)
    requires a != [] && !IsBlank(a[0]) && a[0] != '#' && a[0] != '!' && a[|a| - 1] != Backslash
    requires b != [] && !IsBlank(b[0]) && b[0] != '#' && b[0] != '!' && b[|b| - 1] != Backslash
    ensures LoadLines(t, [a + "\\", b], "") == StoreLine(t, a + b)
  {
    var l := a + "\\";
    StepContinues(t, "", a);
    StepStores(t, a, b);
    assert "" + a == a;
    assert LoadLines(t, [l, b], "") == LoadLines(t, [b], a) by {
      assert [l, b][0] == l && [l, b][1..] == [b];
    }
    assert LoadLines(t, [b], a) == LoadLines(StoreLine(t, a + b), [], "") by {
      assert [b][0] == b && [b][1..] == [];
    }
  }

  /** A plain `key=value` line, once loaded, is exactly the stored line. */
  lemma EntryLineLoads(t: Node, line: string)
    requires line != [] && !IsBlank(line[0]) && line[0] != '#' && line[0] != '!'
    requires line[|line| - 1] != Backslash
    ensures LoadLines(t, [line], "") == StoreLine(t, line)
  {
    StepStores(t, "", line);
    assert "" + line == line;
    LoadLinesUnfold(t, [line], 0, "");
    assert [line][0..] == [line] && [line][1..] == [];
  }

  /** Storing `key=value` with a plain key and value sets that key to that value. */
  lemma EntryLineStored(t: Node, k: string, v: string)
    requires k != [] && v != []
    requires forall i :: 0 <= i < |k| ==> !IsSeparator(k[i]) && k[i] != Backslash && !IsBlank(k[i])
    requires forall i :: 0 <= i < |v| ==> v[i] != Backslash && !IsBlank(v[i])
    ensures StoreLine(t, k + "=" + v) == SetProperty(t, k, v).0
  {
    assert k + "=" + v == k + ['='] + v;
    KeyValueAtSeparator(k, '=', v);
    NoBlankEndsIsFixed(k);
    NoBlankEndsIsFixed(v);
    assert Backslash !in k && Backslash !in v;
  }

  /** A plain `key=value` line sets that key to that value. */
  lemma LoadOneEntry(t: Node, k: string, v: string)
    requires k != [] && v != []
    requires forall i :: 0 <= i < |k| ==> !IsSeparator(k[i]) && k[i] != Backslash && !IsBlank(k[i])
    requires forall i :: 0 <= i < |v| ==> v[i] != Backslash && !IsBlank(v[i])
    requires k[0] != '#' && k[0] != '!'
    ensures GetProperty(LoadLines(t, [k + "=" + v], ""), k) == v
  {
    var line := k + "=" + v;
    assert line[0] == k[0] && line[|line| - 1] == v[|v| - 1];
    EntryLineLoads(t, line);
    EntryLineStored(t, k, v);
    SetThenGet(t, k, v);
  }

  /** `setDefaults`: one pair after another; a missing (null) key or value, or an empty key, is skipped. */
  function DefaultsFrom(t: Node, defaults: seq<Option<string>>, i: nat): (r: Node)
    ensures (forall j :: i <= j < |defaults| ==> defaults[j].None?) ==> r == t
    decreases |defaults| - i
  {
    if i + 1 >= |defaults| then t
    else
      var key := defaults[i];
      var val := defaults[i + 1];
      var t' := if key.None? || val.None? || key.value == [] then t
                else SetDefault(t, EraseBothEndsBlank(key.value), EraseBothEndsBlank(val.value));
      DefaultsFrom(t', defaults, i + 2)
  }

  /** `setDefaults(defaults, num)`, the array given as a sequence whose missing entries are null pointers. */
  method SetDefaults(t: Node, defaults: seq<Option<string>>) returns (r: Node)
    ensures r == DefaultsFrom(t, defaults, 0)
  {
    r := t;
    var i := 0;
    while i + 1 < |defaults|
      invariant DefaultsFrom(t, defaults, 0) == DefaultsFrom(r, defaults, i)
      decreases |defaults| - i
    {
      var key := defaults[i];
      var val := defaults[i + 1];
      if key.Some? && val.Some? && key.value != [] {
        r := SetDefault(r, EraseBothEndsBlank(key.value), EraseBothEndsBlank(val.value));
      }
      i := i + 2;
    }
  }

  /** setDefaults never changes a value already set. */
  lemma {:induction false} DefaultsKeepSetValues(t: Node, defaults: seq<Option<string>>, i: nat, other: string)
    requires GetNodeAt(t, Path(other)).Some? && GetNodeAt(t, Path(other)).value.setValue
    ensures GetProperty(DefaultsFrom(t, defaults, i), other) == GetProperty(t, other)
    decreases |defaults| - i
  {
    if i + 1 < |defaults| {
      var key := defaults[i];
      var val := defaults[i + 1];
      if key.None? || val.None? || key.value == [] {
        DefaultsKeepSetValues(t, defaults, i + 2, other);
      } else {
        var k := EraseBothEndsBlank(key.value);
        var t' := SetDefault(t, k, EraseBothEndsBlank(val.value));
        SetDefaultKeepsSetValues(t, k, EraseBothEndsBlank(val.value), other);
        DefaultWalkKeepsValues(t, Path(k), EraseBothEndsBlank(val.value), Path(other));
        DefaultsKeepSetValues(t', defaults, i + 2, other);
      }
    }
  }
}
