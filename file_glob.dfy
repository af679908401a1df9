/**
 * The file-name glob of `coil::filelist`: a single left-to-right pass over
 * the name (index i) and the pattern (index g) in which '*' and '+' jump
 * ahead to the next occurrence of the character that follows them, every
 * other pattern character must equal the name character under i, and the
 * name's last character rejects a pattern that goes on with anything but
 * '*'. The directory listing itself is an oracle.
 */
module FileGlob {
  import opened Common

  /** A C string: its characters never include the terminating NUL. */
  type CString = s: string | '\0' !in s

  /**
   * What a '+' at the very end of the pattern accepts: as written, only the
   * case of exactly one remaining name character; as the comment beside it
   * says, one or more.
   */
  datatype PlusRule = AsWritten | OneOrMore

  predicate Wild(c: char)
  {
    c == '*' || c == '+'
  }

  /** A pattern fragment without wildcards. */
  predicate Literal(w: string)
  {
    forall k :: 0 <= k < |w| ==> !Wild(w[k])
  }

  /** `std::string::find(c, from)`: the first position at or after `from` holding `c`. */
  function Find(f: string, c: char, from: nat): (r: Option<nat>)
    ensures r.Some? ==> from <= r.value < |f| && f[r.value] == c
                        && forall k :: from <= k < r.value ==> f[k] != c
    ensures r.None? ==> forall k :: from <= k < |f| ==> f[k] != c
    decreases |f| - from
  {
    if from >= |f| then None else if f[from] == c then Some(from) else Find(f, c, from + 1)
  }

  /**
   * The test closing every step that is not a wildcard run: once i is on the
   * name's last character, a pattern that goes on with anything but '*'
   * (or the end) cannot match.
   */
  function EndCheck(f: string, p: string, i: nat, g: nat, m: bool): bool
  {
    m && !(i + 1 == |f| && g + 1 < |p| && p[g + 1] != '*')
  }

  /**
   * The matching loop from state (i, g) with verdict so far `m`. A failed
   * character comparison does not stop the loop, so `m` may be false while
   * the pass goes on.
   */
  function MatchFrom(rule: PlusRule, f: CString, p: CString, i: nat, g: nat, m: bool): (r: bool)
    requires i <= |f| && g <= |p|
    ensures r ==> m
    decreases |f| - i + |p| - g
  {
    if i >= |f| || g >= |p| then m
    else if p[g] == '*' then
      if g + 1 == |p| then m
      else if Wild(p[g + 1]) then MatchFrom(rule, f, p, i, g + 1, m)
      else match Find(f, p[g + 1], i)
           case None => false
           case Some(pos) => MatchFrom(rule, f, p, pos + 1, g + 2, EndCheck(f, p, pos, g + 1, m))
    else if p[g] == '+' then
      if g + 1 == |p| then
        // as written the pass goes on to look for the NUL after i, which a C string never holds
        if rule == OneOrMore || i + 1 >= |f| then m else false
      else if Wild(p[g + 1]) then MatchFrom(rule, f, p, i, g + 1, m)
      else match Find(f, p[g + 1], i + 1)
           case None => false
           case Some(pos) => MatchFrom(rule, f, p, pos + 1, g + 2, EndCheck(f, p, pos, g + 1, m))
    else MatchFrom(rule, f, p, i + 1, g + 1, EndCheck(f, p, i, g, m && f[i] == p[g]))
  }

  /** Whether `filelist` keeps the name `f` for the pattern `p`; an empty pattern keeps every name. */
  function Matches(rule: PlusRule, f: CString, p: CString): (r: bool)
    ensures p == "" ==> r
  {
    MatchFrom(rule, f, p, 0, 0, true)
  }

  /** The loop of `filelist` for one directory entry. */
  method Match(rule: PlusRule, fname: CString, glob: CString) returns (m: bool)
    ensures m == Matches(rule, fname, glob)
  {
    m := true;
    if glob == "" {
      return;
    }
    var i: nat, g: nat := 0, 0;
    while i < |fname| && g < |glob|
      invariant i <= |fname| && g <= |glob|
      invariant MatchFrom(rule, fname, glob, i, g, m) == Matches(rule, fname, glob)
      decreases |fname| - i + |glob| - g
    {
      if glob[g] == '*' {
        if g + 1 == |glob| {
          break;
        }
        if Wild(glob[g + 1]) {
          g := g + 1;
          continue;
        }
        g := g + 1;
        var pos := Find(fname, glob[g], i);
        if pos.None? {
          m := false;
          break;
        }
        i := pos.value;
      } else if glob[g] == '+' {
        if g + 1 == |glob| && (rule == OneOrMore || !(i + 1 < |fname|)) {
          break;
        }
        if g + 1 < |glob| && Wild(glob[g + 1]) {
          g := g + 1;
          continue;
        }
        g := g + 1;
        if g == |glob| {
          // find('\0', i + 1) in a name without NUL
          m := false;
          break;
        }
        var pos := Find(fname, glob[g], i + 1);
        if pos.None? {
          m := false;
          break;
        }
        i := pos.value;
      } else {
        if fname[i] != glob[g] {
          m := false;
        }
      }
      m := EndCheck(fname, glob, i, g, m);
      i, g := i + 1, g + 1;
    }
  }

  /** An ordinary pattern character must equal the name character under it. */
  lemma LiteralMustEqual(rule: PlusRule, f: CString, c: char, r: CString)
    requires f != [] && c != '\0' && !Wild(c)
    ensures Matches(rule, f, [c] + r) ==> f[0] == c
  {
  }

  /**
   * Walking a literal prefix w: the state after it is (|w|, |w|), and the
   * verdict survives unless the name ends with w while the pattern goes on
   * with something other than '*'.
   */
  lemma {:induction false} LiteralPrefix(rule: PlusRule, w: CString, s: CString, t: CString, j: nat, m: bool)
    requires Literal(w) && t != [] && j <= |w|
    ensures var f: CString := w + s; var p: CString := w + t;
            MatchFrom(rule, f, p, j, j, m)
            == MatchFrom(rule, f, p, |w|, |w|, m && (j == |w| || s != [] || t[0] == '*'))
    decreases |w| - j
  {
    var f: CString := w + s;
    var p: CString := w + t;
    if j < |w| {
      assert f[j] == p[j] == w[j];
      assert !Wild(p[j]);
      if j + 1 == |w| {
        assert p[j + 1] == t[0];
      }
      LiteralPrefix(rule, w, s, t, j + 1, EndCheck(f, p, j, j, m && f[j] == p[j]));
    }
  }

  /** A trailing '*' after a literal prefix keeps every name that starts with that prefix. */
  lemma TrailingStarAcceptsSuffix(rule: PlusRule, w: CString, s: CString)
    requires Literal(w)
    ensures Matches(rule, w + s, w + "*")
  {
    LiteralPrefix(rule, w, s, "*", 0, true);
    var f: CString := w + s;
    var p: CString := w + "*";
    assert p[|w|] == '*';
  }

  /** A '*' followed by c rejects the name when c does not occur from the current position on. */
  lemma StarNeedsOccurrence(rule: PlusRule, f: CString, c: char, r: CString)
    requires f != [] && c != '\0' && !Wild(c) && c !in f
    ensures !Matches(rule, f, ['*', c] + r)
  {
    var p: CString := ['*', c] + r;
    assert p[1] == c;
  }

  /** A '+' followed by c needs an occurrence of c strictly after the current position. */
  lemma PlusNeedsLaterOccurrence(rule: PlusRule, f: CString, c: char, r: CString)
    requires f != [] && c != '\0' && !Wild(c) && c !in f[1..]
    ensures !Matches(rule, f, ['+', c] + r)
  {
    var p: CString := ['+', c] + r;
    assert p[1] == c;
    assert forall k :: 1 <= k < |f| ==> f[k] == f[1..][k - 1];
  }

  /** As written, a trailing '+' after a literal prefix keeps a name only when exactly one character follows the prefix. */
  lemma TrailingPlusAsWritten(w: CString, s: CString)
    requires Literal(w) && w != []
    ensures Matches(AsWritten, w + s, w + "+") <==> |s| == 1
  {
    LiteralPrefix(AsWritten, w, s, "+", 0, true);
    var p: CString := w + "+";
    assert p[|w|] == '+';
  }

  /** The name "abc" shows it: the pattern "a+" rejects it although "bc" is one or more characters. */
  lemma TrailingPlusCounterexample()
    ensures !Matches(AsWritten, "abc", "a+")
    ensures Matches(OneOrMore, "abc", "a+")
  {
    TrailingPlusAsWritten("a", "bc");
    TrailingPlusOneOrMore("a", "bc");
  }

  /** With the rule its comment states, a trailing '+' keeps exactly the names with one or more further characters. */
  lemma TrailingPlusOneOrMore(w: CString, s: CString)
    requires Literal(w) && w != []
    ensures Matches(OneOrMore, w + s, w + "+") <==> |s| >= 1
  {
    LiteralPrefix(OneOrMore, w, s, "+", 0, true);
    var p: CString := w + "+";
    assert p[|w|] == '+';
  }

  /** A name that ends while the pattern goes on with a character other than '*' is rejected. */
  lemma EndOfNameRejects(rule: PlusRule, w: CString, c: char, r: CString)
    requires Literal(w) && w != [] && c != '\0' && c != '*'
    ensures !Matches(rule, w, w + [c] + r)
  {
    var t: CString := [c] + r;
    assert w + [c] + r == w + t;
    LiteralPrefix(rule, w, [], t, 0, true);
    assert w + [] == w;
  }

  /** Prepending one character to the pattern shifts the pattern index by one and changes nothing else. */
  lemma {:induction false} MatchFromShift(rule: PlusRule, f: CString, a: char, q: CString, i: nat, g: nat, m: bool)
    requires a != '\0' && i <= |f| && g <= |q|
    ensures var p: CString := [a] + q; MatchFrom(rule, f, p, i, g + 1, m) == MatchFrom(rule, f, q, i, g, m)
    decreases |f| - i + |q| - g, 1
  {
    if i < |f| && g < |q| {
      if Wild(q[g]) {
        ShiftWildStep(rule, f, a, q, i, g, m);
      } else {
        ShiftLiteralStep(rule, f, a, q, i, g, m);
      }
    }
  }

  /** The shift across one step on a wildcard. */
  lemma {:induction false} ShiftWildStep(rule: PlusRule, f: CString, a: char, q: CString, i: nat, g: nat, m: bool)
    requires a != '\0' && i < |f| && g < |q| && Wild(q[g])
    ensures var p: CString := [a] + q; MatchFrom(rule, f, p, i, g + 1, m) == MatchFrom(rule, f, q, i, g, m)
    decreases |f| - i + |q| - g, 0
  {
    var p: CString := [a] + q;
    assert p[g + 1] == q[g];
    if g + 1 < |q| {
      assert p[g + 2] == q[g + 1];
      if Wild(q[g + 1]) {
        MatchFromShift(rule, f, a, q, i, g + 1, m);
      } else {
        var pos := Find(f, q[g + 1], if q[g] == '*' then i else i + 1);
        if pos.Some? {
          assert EndCheck(f, p, pos.value, g + 2, m) == EndCheck(f, q, pos.value, g + 1, m) by {
            if g + 2 < |q| {
              assert p[g + 3] == q[g + 2];
            }
          }
          MatchFromShift(rule, f, a, q, pos.value + 1, g + 2, EndCheck(f, q, pos.value, g + 1, m));
        }
      }
    }
  }

  /** The shift across one step on an ordinary pattern character. */
  lemma {:induction false} ShiftLiteralStep(rule: PlusRule, f: CString, a: char, q: CString, i: nat, g: nat, m: bool)
    requires a != '\0' && i < |f| && g < |q| && !Wild(q[g])
    ensures var p: CString := [a] + q; MatchFrom(rule, f, p, i, g + 1, m) == MatchFrom(rule, f, q, i, g, m)
    decreases |f| - i + |q| - g, 0
  {
    var p: CString := [a] + q;
    assert p[g + 1] == q[g];
    assert EndCheck(f, p, i, g + 1, m && f[i] == q[g]) == EndCheck(f, q, i, g, m && f[i] == q[g]) by {
      if g + 1 < |q| {
        assert p[g + 2] == q[g + 1];
      }
    }
    MatchFromShift(rule, f, a, q, i + 1, g + 1, EndCheck(f, q, i, g, m && f[i] == q[g]));
  }

  /** A run of wildcards is collapsed without moving in the name: only its last wildcard counts. */
  lemma WildcardRunCollapses(rule: PlusRule, f: CString, a: char, b: char, r: CString)
    requires Wild(a) && Wild(b)
    ensures Matches(rule, f, [a, b] + r) == Matches(rule, f, [b] + r)
  {
    var q: CString := [b] + r;
    assert [a, b] + r == [a] + q;
    MatchFromShift(rule, f, a, q, 0, 0, true);
  }

  /** The entries `filelist` returns, in directory order. */
  function Kept(rule: PlusRule, entries: seq<CString>, glob: CString): (r: seq<CString>)
    ensures |r| <= |entries|
  {
    if entries == [] then []
    else Kept(rule, entries[..|entries| - 1], glob)
         + (if Matches(rule, entries[|entries| - 1], glob) then [entries[|entries| - 1]] else [])
  }

  /** A name is returned exactly when it is a directory entry the pattern keeps. */
  lemma {:induction false} KeptMembers(rule: PlusRule, entries: seq<CString>, glob: CString, x: CString)
    ensures x in Kept(rule, entries, glob) <==> x in entries && Matches(rule, x, glob)
  {
    if entries != [] {
      var init := entries[..|entries| - 1];
      KeptMembers(rule, init, glob, x);
      assert entries == init + [entries[|entries| - 1]];
    }
  }

  /** With an empty pattern the listing is the whole directory. */
  lemma {:induction false} KeptAllForEmptyGlob(rule: PlusRule, entries: seq<CString>)
    ensures Kept(rule, entries, "") == entries
  {
    if entries != [] {
      var init := entries[..|entries| - 1];
      KeptAllForEmptyGlob(rule, init);
      assert entries == init + [entries[|entries| - 1]];
    }
  }

  /**
   * `filelist(path, glob)` over the directory `dir` that `opendir`/`readdir`
   * would list (None: `opendir` failed). A null path or an unreadable
   * directory gives the empty list. With `AsWritten` this is the listing
   * the code produces; with `OneOrMore` it is the listing with the
   * trailing '+' read as its comment says.
   */
  method FileList(rule: PlusRule, path: Option<CString>, dir: Option<seq<CString>>, glob: CString) returns (flist: seq<CString>)
    ensures path.None? || dir.None? ==> flist == []
    ensures path.Some? && dir.Some? ==> flist == Kept(rule, dir.value, glob)
  {
    flist := [];
    if path.None? || dir.None? {
      return;
    }
    var entries := dir.value;
    var k := 0;
    while k < |entries|
      invariant k <= |entries|
      invariant flist == Kept(rule, entries[..k], glob)
    {
      assert entries[..k + 1][..k] == entries[..k];
      var keep := Match(rule, entries[k], glob);
      if keep {
        flist := flist + [entries[k]];
      }
      k := k + 1;
    }
    assert entries[..k] == entries;
  }
}
