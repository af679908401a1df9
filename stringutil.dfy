/**
 * The documented string contracts of coil's string utilities: escaping,
 * blank trimming, normalisation, splitting, boolean and path tests, and
 * list flattening. The functions are pure: arguments in, result out.
 */
module StringUtil {

  const HT: char := '\t'
  const LF: char := '\n'
  const CR: char := '\r'
  const FF: char := 12 as char
  const Backslash: char := '\\'

  // ---------------------------------------------------------------------
  // Escaped characters
  // ---------------------------------------------------------------------

  /** Number of consecutive backslashes immediately before position `pos`. */
  function BackslashRun(s: string, pos: nat): (n: nat)
    requires pos <= |s|
    ensures n <= pos
    ensures forall j :: pos - n <= j < pos ==> s[j] == Backslash
    ensures n < pos ==> s[pos - n - 1] != Backslash
  {
    if pos == 0 || s[pos - 1] != Backslash then 0 else 1 + BackslashRun(s, pos - 1)
  }

  /** `isEscaped(str, pos)`: the character at `pos` is preceded by an odd run of backslashes. */
  predicate IsEscaped(s: string, pos: nat)
    requires pos <= |s|
  {
    BackslashRun(s, pos) % 2 == 1
  }

  /** The escape sequence that `escape` writes for one character. */
  function EscapeChar(c: char): string
  {
    if c == HT then "\\t"
    else if c == LF then "\\n"
    else if c == CR then "\\r"
    else if c == FF then "\\f"
    else if c == Backslash then "\\\\"
    else [c]
  }

  /** `escape`: HT, LF, CR, FF and backslash become two-character escapes; all else, quotes included, is kept. */
  function Escape(s: string): (r: string)
    ensures |r| >= |s|
    ensures (forall i :: 0 <= i < |s| ==> s[i] !in {HT, LF, CR, FF, Backslash}) ==> r == s
  {
    if s == [] then [] else EscapeChar(s[0]) + Escape(s[1..])
  }

  /** The character that `unescape` writes for a backslash followed by `c`. */
  function UnescapeChar(c: char): char
  {
    if c == 't' then HT
    else if c == 'n' then LF
    else if c == 'r' then CR
    else if c == 'f' then FF
    else c  // covers '"', '\'' and '\\', which stand for themselves
  }

  /**
   * `unescape`: a backslash and the character after it become one
   * character; a trailing lone backslash is dropped.
   */
  function Unescape(s: string): (r: string)
    ensures |r| <= |s|
    ensures Backslash !in s ==> r == s
  {
    if s == [] then []
    else if s[0] == Backslash then
      if |s| == 1 then [] else [UnescapeChar(s[1])] + Unescape(s[2..])
    else [s[0]] + Unescape(s[1..])
  }

  /** Unescaping undoes escaping. */
  lemma {:induction false} UnescapeEscape(s: string)
    ensures Unescape(Escape(s)) == s
  {
    if s != [] {
      UnescapeEscape(s[1..]);
      UnescapeEscapeChar(s[0], Escape(s[1..]));
      assert s == [s[0]] + s[1..];
    }
  }

  /** One escaped character in front of any text unescapes back to that character. */
  lemma UnescapeEscapeChar(c: char, rest: string)
    ensures Unescape(EscapeChar(c) + rest) == [c] + Unescape(rest)
  {
    var e := EscapeChar(c);
    var t := e + rest;
    if c in {HT, LF, CR, FF, Backslash} {
      assert |e| == 2 && e[0] == Backslash && UnescapeChar(e[1]) == c;
      assert t[0] == Backslash && t[1] == e[1] && t[2..] == rest;
    } else {
      assert e == [c] && t[0] == c && t[1..] == rest;
    }
  }

  /** ... but escaping does not undo unescaping: `\"` unescapes to `"`, which escape keeps as it is. */
  lemma EscapeNotInverseOfUnescape()
    ensures Unescape("\\\"") == "\""
    ensures Escape(Unescape("\\\"")) != "\\\""
  {
    assert Unescape("\\\"") == [UnescapeChar('"')] + Unescape([]);
  }

  /** A trailing lone backslash is removed. */
  lemma UnescapeDropsTrailingBackslash()
    ensures Unescape("ab\\") == "ab"
  {
    assert Unescape("\\") == [];
    assert Unescape("b\\") == "b";
  }

  // ---------------------------------------------------------------------
  // Blanks
  // ---------------------------------------------------------------------

  /** Only space and tab count as blanks. */
  predicate IsBlank(c: char)
  {
    c == ' ' || c == HT
  }

  /** `eraseHeadBlank`: the longest suffix of `s` that does not start with a blank. */
  function EraseHeadBlank(s: string): (r: string)
    ensures |r| <= |s|
    ensures forall i :: 0 <= i < |s| - |r| ==> IsBlank(s[i])
    ensures r == [] || !IsBlank(r[0])
  {
    if s != [] && IsBlank(s[0]) then EraseHeadBlank(s[1..]) else s
  }

  /** What `eraseHeadBlank` keeps is the tail of `s` past the blanks it cut off. */
  lemma {:induction false} EraseHeadBlankIsSuffix(s: string)
    ensures var r := EraseHeadBlank(s);
            forall i, j :: 0 <= j < |r| && i == |s| - |r| + j ==> r[j] == s[i]
    decreases |s|
  {
    if s != [] && IsBlank(s[0]) {
      var t, r := s[1..], EraseHeadBlank(s);
      EraseHeadBlankIsSuffix(t);
      assert r == EraseHeadBlank(t);
      forall i, j | 0 <= j < |r| && i == |s| - |r| + j
        ensures r[j] == s[i]
      {
        assert r[j] == t[i - 1];
      }
    }
  }

  /** Past what `eraseBothEndsBlank` keeps, `s` holds only blanks. */
  lemma BlankAfterBothEnds(s: string)
    ensures var h := EraseHeadBlank(s);
            var a := |s| - |h|;
            forall i :: a + |EraseTailBlank(h)| <= i < |s| ==> IsBlank(s[i])
  {
    var h := EraseHeadBlank(s);
    var a := |s| - |h|;
    EraseHeadBlankIsSuffix(s);
    forall i | a + |EraseTailBlank(h)| <= i < |s|
      ensures IsBlank(s[i])
    {
      var j := i - a;
      assert 0 <= j < |h| && i == |s| - |h| + j;
      assert h[j] == s[i];
    }
  }

  /** `eraseTailBlank`: the longest prefix of `s` that does not end with a blank. */
  function EraseTailBlank(s: string): (r: string)
    ensures |r| <= |s| && r == s[..|r|]
    ensures forall i :: |r| <= i < |s| ==> IsBlank(s[i])
    ensures r == [] || !IsBlank(r[|r| - 1])
  {
    if s != [] && IsBlank(s[|s| - 1]) then EraseTailBlank(s[..|s| - 1]) else s
  }

  /** `eraseBothEndsBlank`: a contiguous slice of `s`; only blanks are cut off, at either end. */
  function EraseBothEndsBlank(s: string): (r: string)
    ensures var a := |s| - |EraseHeadBlank(s)|;
            a + |r| <= |s|
            && (forall i :: 0 <= i < a ==> IsBlank(s[i]))
            && (forall i :: a + |r| <= i < |s| ==> IsBlank(s[i]))
    ensures r == [] || (!IsBlank(r[0]) && !IsBlank(r[|r| - 1]))
  {
    BlankAfterBothEnds(s);
    EraseTailBlank(EraseHeadBlank(s))
  }

  /** Trimming both ends twice trims nothing more. */
  lemma {:induction false} EraseBothEndsBlankIdempotent(s: string)
    ensures EraseBothEndsBlank(EraseBothEndsBlank(s)) == EraseBothEndsBlank(s)
  {
    var r := EraseBothEndsBlank(s);
    NoBlankEndsIsFixed(r);
  }

  /** A string that does not start with a blank is its own `eraseHeadBlank`. */
  lemma NoHeadBlankIsFixed(r: string)
    requires r == [] || !IsBlank(r[0])
    ensures EraseHeadBlank(r) == r
  {
  }

  lemma NoBlankEndsIsFixed(r: string)
    requires r == [] || (!IsBlank(r[0]) && !IsBlank(r[|r| - 1]))
    ensures EraseBothEndsBlank(r) == r
  {
    assert EraseHeadBlank(r) == r;
    assert EraseTailBlank(r) == r;
  }

  /** `eraseBlank`: every blank removed, every other character kept in order. */
  function EraseBlank(s: string): (r: string)
    ensures forall i :: 0 <= i < |r| ==> !IsBlank(r[i])
    ensures forall c :: !IsBlank(c) ==> multiset(r)[c] == multiset(s)[c]
  {
    if s == [] then []
    else
      var rest := EraseBlank(s[1..]);
      assert s == [s[0]] + s[1..];
      if IsBlank(s[0]) then rest else [s[0]] + rest
  }

  // ---------------------------------------------------------------------
  // Case and normalisation
  // ---------------------------------------------------------------------

  predicate IsUpper(c: char)
  {
    'A' <= c <= 'Z'
  }

  function LowerChar(c: char): (d: char)
    ensures !IsUpper(d)
    ensures IsUpper(c) ==> d as int == c as int + 32
    ensures !IsUpper(c) ==> d == c
  {
    if IsUpper(c) then (c as int + 32) as char else c
  }

  /** `toLower` on ASCII letters. */
  function ToLower(s: string): (r: string)
    ensures |r| == |s|
    ensures forall i :: 0 <= i < |s| ==> r[i] == LowerChar(s[i])
  {
    if s == [] then [] else [LowerChar(s[0])] + ToLower(s[1..])
  }

  /** `normalize`: trim both ends, then lower-case. */
  function Normalize(s: string): (r: string)
    ensures forall i :: 0 <= i < |r| ==> !IsUpper(r[i])
    ensures r == [] || (!IsBlank(r[0]) && !IsBlank(r[|r| - 1]))
  {
    ToLower(EraseBothEndsBlank(s))
  }

  /** Normalising a normalised string changes nothing. */
  lemma NormalizeIdempotent(s: string)
    ensures Normalize(Normalize(s)) == Normalize(s)
  {
    var n := Normalize(s);
    NoBlankEndsIsFixed(n);
    assert ToLower(n) == n;
  }

  /** A string of blanks only. */
  predicate AllBlank(a: string)
  {
    forall i :: 0 <= i < |a| ==> IsBlank(a[i])
  }

  lemma {:induction false} EraseHeadBlankPrefix(a: string, x: string)
    requires AllBlank(a)
    ensures EraseHeadBlank(a + x) == EraseHeadBlank(x)
    decreases |a|
  {
    if a == [] {
      assert a + x == x;
    } else {
      assert (a + x)[0] == a[0];
      assert (a + x)[1..] == a[1..] + x;
      EraseHeadBlankPrefix(a[1..], x);
    }
  }

  lemma {:induction false} EraseHeadBlankAppend(s: string, b: string)
    requires EraseHeadBlank(s) != []
    ensures EraseHeadBlank(s + b) == EraseHeadBlank(s) + b
    decreases |s|
  {
    assert (s + b)[0] == s[0];
    if IsBlank(s[0]) {
      assert (s + b)[1..] == s[1..] + b;
      EraseHeadBlankAppend(s[1..], b);
    }
  }

  lemma {:induction false} EraseTailBlankSuffix(x: string, b: string)
    requires AllBlank(b)
    ensures EraseTailBlank(x + b) == EraseTailBlank(x)
    decreases |b|
  {
    if b == [] {
      assert x + b == x;
    } else {
      var c := b[..|b| - 1];
      assert (x + b)[|x + b| - 1] == b[|b| - 1];
      assert (x + b)[..|x + b| - 1] == x + c;
      EraseTailBlankSuffix(x, c);
    }
  }

  /** Blanks added at either end are cut off again: `normalize` does not see them. */
  lemma NormalizePadding(a: string, s: string, b: string)
    requires AllBlank(a) && AllBlank(b)
    ensures Normalize(a + s + b) == Normalize(s)
  {
    assert a + s + b == a + (s + b);
    EraseHeadBlankPrefix(a, s + b);
    if EraseHeadBlank(s) == [] {
      assert AllBlank(s + b);
      assert s + b + [] == s + b;
      EraseHeadBlankPrefix(s + b, []);
    } else {
      EraseHeadBlankAppend(s, b);
      EraseTailBlankSuffix(EraseHeadBlank(s), b);
    }
  }

  lemma {:induction false} EraseHeadBlankLower(s: string)
    ensures EraseHeadBlank(ToLower(s)) == ToLower(EraseHeadBlank(s))
    decreases |s|
  {
    if s != [] {
      assert ToLower(s)[1..] == ToLower(s[1..]);
      EraseHeadBlankLower(s[1..]);
    }
  }

  lemma {:induction false} EraseTailBlankLower(s: string)
    ensures EraseTailBlank(ToLower(s)) == ToLower(EraseTailBlank(s))
    decreases |s|
  {
    if s != [] {
      var c := s[..|s| - 1];
      assert ToLower(s)[..|s| - 1] == ToLower(c);
      EraseTailBlankLower(c);
    }
  }

  /** Letter case makes no difference to `normalize`. */
  lemma NormalizeLower(s: string)
    ensures Normalize(ToLower(s)) == Normalize(s)
  {
    EraseHeadBlankLower(s);
    EraseTailBlankLower(EraseHeadBlank(s));
    var e := EraseBothEndsBlank(s);
    assert ToLower(ToLower(e)) == ToLower(e);
  }

  // ---------------------------------------------------------------------
  // Splitting and flattening
  // ---------------------------------------------------------------------

  /** Put `c` in front of the first piece. */
  function Prepend(c: char, pieces: seq<string>): seq<string>
    requires pieces != []
  {
    [[c] + pieces[0]] + pieces[1..]
  }

  /** The pieces of `s` between non-overlapping, leftmost occurrences of `delim`. */
  function Pieces(s: string, delim: string): (r: seq<string>)
    requires delim != []
    ensures r != []
    decreases |s|
  {
    if |s| < |delim| then [s]
    else if s[..|delim|] == delim then [""] + Pieces(s[|delim|..], delim)
    else Prepend(s[0], Pieces(s[1..], delim))
  }

  /** `flatten`: the elements joined with the delimiter; the empty list gives "". */
  function Flatten(sv: seq<string>, delim: string): (r: string)
    ensures sv == [] ==> r == ""
    ensures |sv| == 1 ==> r == sv[0]
  {
    if sv == [] then ""
    else if |sv| == 1 then sv[0]
    else sv[0] + delim + Flatten(sv[1..], delim)
  }

  /** Flattening a list with one more element appends the delimiter and that element. */
  lemma {:induction false} FlattenSnoc(sv: seq<string>, x: string, delim: string)
    requires sv != []
    ensures Flatten(sv + [x], delim) == Flatten(sv, delim) + delim + x
    decreases |sv|
  {
    if |sv| == 1 {
      assert sv + [x] == [sv[0], x];
      assert [sv[0], x][1..] == [x];
    } else {
      FlattenSnoc(sv[1..], x, delim);
      assert (sv + [x])[1..] == sv[1..] + [x];
    }
  }

  /** `flatten` with its default delimiter. */
  function FlattenDefault(sv: seq<string>): string
  {
    Flatten(sv, ", ")
  }

  /**
   * `split(input, delimiter, ignore_empty)`: the empty input always gives the
   * empty list; otherwise the pieces between delimiters, with empty pieces
   * dropped when `ignore_empty` is set.
   */
  function Split(input: string, delim: string, ignoreEmpty: bool): (r: seq<string>)
    ensures input == [] ==> r == []
    ensures ignoreEmpty ==> forall i :: 0 <= i < |r| ==> r[i] != []
  {
    if input == [] then []
    else
      var ps := if delim == [] then [input] else Pieces(input, delim);
      if ignoreEmpty then NonEmpty(ps) else ps
  }

  function NonEmpty(ps: seq<string>): (r: seq<string>)
    ensures forall i :: 0 <= i < |r| ==> r[i] != []
    ensures forall x :: x in r <==> x in ps && x != []
  {
    if ps == [] then []
    else if ps[0] == [] then NonEmpty(ps[1..])
    else [ps[0]] + NonEmpty(ps[1..])
  }

  /** Joining the pieces with the delimiter gives back the string. */
  lemma {:induction false} FlattenPieces(s: string, delim: string)
    requires delim != []
    ensures Flatten(Pieces(s, delim), delim) == s
    decreases |s|
  {
    if |s| < |delim| {
    } else if s[..|delim|] == delim {
      FlattenPieces(s[|delim|..], delim);
      var ps := Pieces(s[|delim|..], delim);
      assert Pieces(s, delim) == [""] + ps;
      assert s == delim + s[|delim|..];
    } else {
      FlattenPieces(s[1..], delim);
      var ps := Pieces(s[1..], delim);
      assert s == [s[0]] + s[1..];
      FlattenPrepend(s[0], ps, delim);
    }
  }

  lemma FlattenPrepend(c: char, ps: seq<string>, delim: string)
    requires ps != []
    ensures Flatten(Prepend(c, ps), delim) == [c] + Flatten(ps, delim)
  {
    var q := Prepend(c, ps);
    if |ps| > 1 {
      assert q[1..] == ps[1..];
    }
  }

  /** Splitting a flattened list at a one-character delimiter absent from its elements gives the list back. */
  lemma {:induction false} SplitFlatten(sv: seq<string>, c: char)
    requires forall i :: 0 <= i < |sv| ==> c !in sv[i]
    requires sv != []
    ensures Pieces(Flatten(sv, [c]), [c]) == sv
    decreases |sv|, |sv[0]|
  {
    if |sv| == 1 {
      NoDelimSinglePiece(sv[0], c);
    } else if sv[0] == [] {
      SplitFlatten(sv[1..], c);
      PiecesAfterDelim(sv, c);
    } else {
      var x := sv[0];
      var sv' := [x[1..]] + sv[1..];
      TailKeepsNoDelim(sv, c);
      SplitFlatten(sv', c);
      PiecesAfterChar(sv, c);
    }
  }

  lemma PiecesAfterDelim(sv: seq<string>, c: char)
    requires |sv| >= 2 && sv[0] == []
    requires Pieces(Flatten(sv[1..], [c]), [c]) == sv[1..]
    ensures Pieces(Flatten(sv, [c]), [c]) == sv
  {
    var rest := Flatten(sv[1..], [c]);
    assert Flatten(sv, [c]) == [c] + rest;
    assert ([c] + rest)[1..] == rest;
    assert ([c] + rest)[..1] == [c];
    assert sv == [""] + sv[1..];
  }

  lemma TailKeepsNoDelim(sv: seq<string>, c: char)
    requires forall i :: 0 <= i < |sv| ==> c !in sv[i]
    requires |sv| >= 2 && sv[0] != []
    ensures var sv' := [sv[0][1..]] + sv[1..];
            forall i :: 0 <= i < |sv'| ==> c !in sv'[i]
  {
    var x := sv[0];
    assert forall ch :: ch in x[1..] ==> ch in x;
  }

  lemma PiecesAfterChar(sv: seq<string>, c: char)
    requires |sv| >= 2 && sv[0] != [] && sv[0][0] != c
    requires Pieces(Flatten([sv[0][1..]] + sv[1..], [c]), [c]) == [sv[0][1..]] + sv[1..]
    ensures Pieces(Flatten(sv, [c]), [c]) == sv
  {
    var x := sv[0];
    var sv' := [x[1..]] + sv[1..];
    FlattenFirstChar(sv);
    PiecesCons(x[0], Flatten(sv', [c]), c);
    assert sv'[0] == x[1..] && sv'[1..] == sv[1..] && [x[0]] + x[1..] == x;
    assert Prepend(x[0], sv') == sv;
  }

  lemma FlattenFirstChar(sv: seq<string>)
    requires |sv| >= 2 && sv[0] != []
    ensures forall d: string :: Flatten(sv, d) == [sv[0][0]] + Flatten([sv[0][1..]] + sv[1..], d)
  {
    var x := sv[0];
    var sv' := [x[1..]] + sv[1..];
    assert sv'[1..] == sv[1..] && sv'[0] == x[1..];
    assert x == [x[0]] + x[1..];
  }

  lemma PiecesCons(ch: char, g: string, c: char)
    requires ch != c
    ensures Pieces([ch] + g, [c]) == Prepend(ch, Pieces(g, [c]))
  {
    var f := [ch] + g;
    assert f[..1] == [ch] && f[1..] == g && f[0] == ch;
  }

  lemma {:induction false} NoDelimSinglePiece(x: string, c: char)
    requires c !in x
    ensures Pieces(x, [c]) == [x]
    decreases |x|
  {
    if |x| >= 1 {
      assert x[..1] == [x[0]];
      assert x[0] != c;
      assert forall ch :: ch in x[1..] ==> ch in x;
      NoDelimSinglePiece(x[1..], c);
      assert [x[0]] + x[1..] == x;
    }
  }

  // ---------------------------------------------------------------------
  // Tests on strings
  // ---------------------------------------------------------------------

  /** `toBool`: true for the yes-string, false for the no-string, otherwise the default. */
  function ToBool(s: string, yes: string, no: string, defaultValue: bool): (b: bool)
    ensures s == yes ==> b
    ensures s != yes && s == no ==> !b
    ensures s != yes && s != no ==> b == defaultValue
  {
    if s == yes then true else if s == no then false else defaultValue
  }

  /** `pat` occurs in `s` starting at position `i`. */
  predicate OccursAt(s: string, pat: string, i: nat)
  {
    i + |pat| <= |s| && s[i..i + |pat|] == pat
  }

  /** Whether `pat` occurs in `s` at or after position `from`. */
  function ContainsFrom(s: string, pat: string, from: nat): (b: bool)
    requires from <= |s|
    ensures b <==> exists i: nat :: from <= i && OccursAt(s, pat, i)
    decreases |s| - from
  {
    if from + |pat| > |s| then false
    else if s[from..from + |pat|] == pat then assert OccursAt(s, pat, from); true
    else ContainsFrom(s, pat, from + 1)
  }

  /** `isURL`: the string contains "://". */
  function IsURL(s: string): (b: bool)
    ensures b <==> exists i: nat :: OccursAt(s, "://", i)
  {
    ContainsFrom(s, "://", 0)
  }

  predicate IsAlpha(c: char)
  {
    ('a' <= c <= 'z') || ('A' <= c <= 'Z')
  }

  /**
   * `isAbsolutePath`, as its documentation states it: a leading '/', a
   * letter followed by '/' and '\', or a leading pair of backslashes.
   */
  function IsAbsolutePath(s: string): (b: bool)
    ensures b <==> ((|s| >= 1 && s[0] == '/')
                    || (|s| >= 3 && IsAlpha(s[0]) && s[1] == '/' && s[2] == Backslash)
                    || (|s| >= 2 && s[0] == Backslash && s[1] == Backslash))
  {
    if |s| >= 1 && s[0] == '/' then true
    else if |s| >= 3 && IsAlpha(s[0]) && s[1] == '/' && s[2] == Backslash then true
    else |s| >= 2 && s[0] == Backslash && s[1] == Backslash
  }
}
