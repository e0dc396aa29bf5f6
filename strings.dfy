/**
 * The string operations of JavaScript that the modelled code uses:
 * `trim`, `split` on one character or on runs of a character class,
 * `filter(Boolean)` on the pieces, `includes`, `startsWith`, `slice`,
 * and ASCII case mapping.
 */
module Strings {

  /** The characters that `String.prototype.trim` removes and `\s` matches:
      white space and line terminators. */
  predicate IsSpace(c: char) {
    c == '\t' || c == '\n' || c == '\U{000B}' || c == '\U{000C}' || c == '\r' || c == ' '
    || c == '\U{00A0}' || c == '\U{1680}' || ('\U{2000}' <= c <= '\U{200A}')
    || c == '\U{2028}' || c == '\U{2029}' || c == '\U{202F}' || c == '\U{205F}'
    || c == '\U{3000}' || c == '\U{FEFF}'
  }

  predicate NoSpace(s: string) {
    forall i :: 0 <= i < |s| ==> !IsSpace(s[i])
  }

  predicate AllSpace(s: string) {
    forall i :: 0 <= i < |s| ==> IsSpace(s[i])
  }

  /** `s` with its leading white space removed. */
  function TrimStart(s: string): (r: string)
    ensures |r| <= |s| && r == s[|s| - |r|..]
    ensures r == [] || !IsSpace(r[0])
    ensures AllSpace(s[..|s| - |r|])
  {
    if |s| > 0 && IsSpace(s[0]) then
      var r := TrimStart(s[1..]);
      assert s[..|s| - |r|] == [s[0]] + s[1..][..|s| - 1 - |r|];
      r
    else s
  }

  /** `s` with its trailing white space removed. */
  function TrimEnd(s: string): (r: string)
    ensures |r| <= |s| && r == s[..|r|]
    ensures r == [] || !IsSpace(r[|r| - 1])
    ensures AllSpace(s[|r|..])
  {
    if |s| > 0 && IsSpace(s[|s| - 1]) then
      var r := TrimEnd(s[..|s| - 1]);
      assert s[|r|..] == s[..|s| - 1][|r|..] + [s[|s| - 1]];
      r
    else s
  }

  /** `s.trim()` */
  function Trim(s: string): string {
    TrimEnd(TrimStart(s))
  }

  /** `s.trim()` is empty exactly when `s` is all white space. */
  lemma TrimEmptyIff(s: string)
    ensures Trim(s) == "" <==> AllSpace(s)
  {
    var t := TrimStart(s);
    if Trim(s) == "" {
      assert AllSpace(t[0..]) && t[0..] == t;
      assert t == [];
      assert s[..|s|] == s;
    } else {
      assert !IsSpace(t[0]);
      assert t[0] == s[|s| - |t|];
    }
  }

  /** A string without white space is its own trim. */
  lemma TrimNoSpace(s: string)
    requires NoSpace(s)
    ensures Trim(s) == s
  {
    if |s| > 0 {
      assert !IsSpace(s[0]) && !IsSpace(s[|s| - 1]);
    }
  }

  /** A string that neither starts nor ends with white space is its own trim. */
  lemma TrimEnds(s: string)
    requires s != "" ==> !IsSpace(s[0]) && !IsSpace(s[|s| - 1])
    ensures Trim(s) == s
  {
    if |s| > 0 {
      assert !IsSpace(s[0]) && !IsSpace(s[|s| - 1]);
    }
  }

  /** The first character of a trimmed, non-empty string is the first
      non-space character of the original. */
  lemma TrimFirst(s: string)
    requires Trim(s) != ""
    ensures exists k :: 0 <= k < |s| && AllSpace(s[..k]) && Trim(s)[0] == s[k]
  {
    var t := TrimStart(s);
    var k := |s| - |t|;
    assert Trim(s) == t[..|Trim(s)|];
    assert t[0] == s[k];
  }

  // ---------- case mapping (ASCII letters only) ----------

  predicate IsUpper(c: char) { 'A' <= c <= 'Z' }
  predicate IsLower(c: char) { 'a' <= c <= 'z' }

  function LowerChar(c: char): char {
    if IsUpper(c) then (c as int + 32) as char else c
  }

  function UpperChar(c: char): (r: char)
    ensures !IsLower(r)
  {
    if IsLower(c) then (c as int - 32) as char else c
  }

  /** `s.toLowerCase()` on ASCII letters */
  function ToLower(s: string): (r: string)
    ensures |r| == |s| && forall i :: 0 <= i < |s| ==> r[i] == LowerChar(s[i])
  {
    if s == [] then [] else [LowerChar(s[0])] + ToLower(s[1..])
  }

  /** `s.toUpperCase()` on ASCII letters */
  function ToUpper(s: string): (r: string)
    ensures |r| == |s| && forall i :: 0 <= i < |s| ==> r[i] == UpperChar(s[i])
  {
    if s == [] then [] else [UpperChar(s[0])] + ToUpper(s[1..])
  }

  lemma ToLowerConcat(a: string, b: string)
    ensures ToLower(a + b) == ToLower(a) + ToLower(b)
  {
    assert |ToLower(a + b)| == |ToLower(a) + ToLower(b)|;
    forall i | 0 <= i < |a + b| ensures ToLower(a + b)[i] == (ToLower(a) + ToLower(b))[i] {
      if i < |a| { assert (a + b)[i] == a[i]; } else { assert (a + b)[i] == b[i - |a|]; }
    }
  }

  /** Lower-casing twice is lower-casing once. */
  lemma ToLowerTwice(s: string)
    ensures ToLower(ToLower(s)) == ToLower(s)
  {
  }

  /** `ps.map(p => p.toLowerCase())` */
  function MapLower(ps: seq<string>): (r: seq<string>)
    ensures |r| == |ps| && forall k :: 0 <= k < |ps| ==> r[k] == ToLower(ps[k])
  {
    if ps == [] then [] else [ToLower(ps[0])] + MapLower(ps[1..])
  }

  /** Lower-casing a joined string lower-cases the pieces and the separator. */
  lemma {:induction false} ToLowerJoin(ps: seq<string>, sep: string)
    ensures ToLower(Join(ps, sep)) == Join(MapLower(ps), ToLower(sep))
  {
    if |ps| > 1 {
      ToLowerJoin(ps[1..], sep);
      ToLowerConcat(ps[0] + sep, Join(ps[1..], sep));
      ToLowerConcat(ps[0], sep);
      assert MapLower(ps)[1..] == MapLower(ps[1..]);
    }
  }

  /** Lower-casing neither adds nor removes a character that is not a letter. */
  lemma {:induction false} MapLowerKeepsOut(ps: seq<string>, c: char)
    requires !IsUpper(c) && !IsLower(c)
    requires forall k, i :: 0 <= k < |ps| && 0 <= i < |ps[k]| ==> ps[k][i] != c
    ensures forall k, i :: 0 <= k < |MapLower(ps)| && 0 <= i < |MapLower(ps)[k]| ==> MapLower(ps)[k][i] != c
  {
    forall k, i | 0 <= k < |MapLower(ps)| && 0 <= i < |MapLower(ps)[k]|
      ensures MapLower(ps)[k][i] != c
    {
      assert MapLower(ps)[k] == ToLower(ps[k]);
      assert ToLower(ps[k])[i] == LowerChar(ps[k][i]);
    }
  }

  /** Splitting the lower case of a join lower-cases the pieces. */
  lemma SplitLowerJoin(ps: seq<string>, sep: char)
    requires |ps| >= 1 && !IsUpper(sep) && !IsLower(sep)
    requires forall k, i :: 0 <= k < |ps| && 0 <= i < |ps[k]| ==> ps[k][i] != sep
    ensures Split(ToLower(Join(ps, [sep])), sep) == MapLower(ps)
  {
    ToLowerJoin(ps, [sep]);
    assert ToLower([sep]) == [sep];
    MapLowerKeepsOut(ps, sep);
    SplitJoin(MapLower(ps), sep);
  }

  // ---------- searching ----------

  /** `s.startsWith(p)` */
  predicate StartsWith(s: string, p: string) {
    p <= s
  }

  /** `s.includes(needle)` */
  predicate Contains(s: string, needle: string)
    decreases |s|
  {
    needle <= s || (|s| > 0 && Contains(s[1..], needle))
  }

  /** `s.slice(from, to)` for non-negative bounds: both bounds are clamped to the length. */
  function Slice(s: string, from: nat, to: nat): (r: string)
    ensures |r| <= |s|
  {
    var a := if from < |s| then from else |s|;
    var b := if to < |s| then to else |s|;
    if a <= b then s[a..b] else ""
  }

  // ---------- splitting ----------

  /** Splits `s` at every character satisfying `isSep`, keeping empty pieces:
      `s.split(c)` for a character `c`, or `s.split(/[...]/)` for a class. */
  function SplitWhere(s: string, isSep: char -> bool): (parts: seq<string>)
    ensures |parts| >= 1
    ensures forall k, i :: 0 <= k < |parts| && 0 <= i < |parts[k]| ==> !isSep(parts[k][i])
  {
    if |s| == 0 then [""]
    else
      var rest := SplitWhere(s[1..], isSep);
      if isSep(s[0]) then [""] + rest else [[s[0]] + rest[0]] + rest[1..]
  }

  /** `s.split(sep)` for a one-character separator. */
  function Split(s: string, sep: char): (parts: seq<string>)
    ensures |parts| >= 1
    ensures forall k, i :: 0 <= k < |parts| && 0 <= i < |parts[k]| ==> parts[k][i] != sep
  {
    SplitWhere(s, c => c == sep)
  }

  /** `parts.join(sep)` */
  function Join(parts: seq<string>, sep: string): string {
    if |parts| == 0 then ""
    else if |parts| == 1 then parts[0]
    else parts[0] + sep + Join(parts[1..], sep)
  }

  /** Splitting on a character and joining with it again gives the string back. */
  lemma {:induction false} JoinSplit(s: string, sep: char)
    ensures Join(Split(s, sep), [sep]) == s
  {
    if |s| > 0 {
      JoinSplit(s[1..], sep);
      var rest := Split(s[1..], sep);
      if s[0] == sep {
        assert Split(s, sep) == [""] + rest;
      } else {
        assert Split(s, sep) == [[s[0]] + rest[0]] + rest[1..];
        if |rest| > 1 {
          assert rest == [rest[0]] + rest[1..];
        }
      }
    }
  }

  /** Splitting a join of separator-free pieces gives the pieces back. */
  lemma {:induction false} SplitJoin(ps: seq<string>, sep: char)
    requires |ps| >= 1
    requires forall k, i :: 0 <= k < |ps| && 0 <= i < |ps[k]| ==> ps[k][i] != sep
    ensures Split(Join(ps, [sep]), sep) == ps
  {
    if |ps| == 1 {
      SplitNoSep(ps[0], c => c == sep);
    } else {
      SplitJoin(ps[1..], sep);
      assert Join(ps, [sep]) == ps[0] + [sep] + Join(ps[1..], [sep]);
      SplitAtFirst(ps[0], sep, Join(ps[1..], [sep]), c => c == sep);
      assert ps == [ps[0]] + ps[1..];
    }
  }

  /** Splitting a join of pieces free of a character class, joined with a
      character of that class, gives the pieces back. */
  lemma {:induction false} SplitWhereJoin(ps: seq<string>, sep: char, isSep: char -> bool)
    requires |ps| >= 1 && isSep(sep)
    requires forall k, i :: 0 <= k < |ps| && 0 <= i < |ps[k]| ==> !isSep(ps[k][i])
    ensures SplitWhere(Join(ps, [sep]), isSep) == ps
  {
    if |ps| == 1 {
      SplitNoSep(ps[0], isSep);
    } else {
      SplitWhereJoin(ps[1..], sep, isSep);
      assert Join(ps, [sep]) == ps[0] + [sep] + Join(ps[1..], [sep]);
      SplitAtFirst(ps[0], sep, Join(ps[1..], [sep]), isSep);
      assert ps == [ps[0]] + ps[1..];
    }
  }

  /** A separator after a separator-free prefix ends the first piece. */
  lemma {:induction false} SplitAtFirst(a: string, c: char, b: string, isSep: char -> bool)
    requires forall i :: 0 <= i < |a| ==> !isSep(a[i])
    requires isSep(c)
    ensures SplitWhere(a + [c] + b, isSep) == [a] + SplitWhere(b, isSep)
  {
    if a == [] {
      assert a + [c] + b == [c] + b;
      assert ([c] + b)[1..] == b;
    } else {
      SplitAtFirst(a[1..], c, b, isSep);
      assert (a + [c] + b)[1..] == a[1..] + [c] + b;
      assert [a[0]] + a[1..] == a;
    }
  }

  /** The non-empty pieces: `split(...).filter(Boolean)`. Splitting at single
      separator characters and dropping the empty pieces gives the same words as
      splitting at runs of them, so this also models `split(/[...]+/).filter(Boolean)`. */
  function NonEmpty(parts: seq<string>): (r: seq<string>)
    ensures forall k :: 0 <= k < |r| ==> r[k] != "" && r[k] in parts
  {
    if parts == [] then []
    else if parts[0] == "" then NonEmpty(parts[1..])
    else [parts[0]] + NonEmpty(parts[1..])
  }

  /** Pieces that are all non-empty are kept as they are. */
  lemma {:induction false} NonEmptyAll(ps: seq<string>)
    requires forall k :: 0 <= k < |ps| ==> ps[k] != ""
    ensures NonEmpty(ps) == ps
  {
    if ps != [] {
      NonEmptyAll(ps[1..]);
    }
  }

  /** A string made only of separators splits into empty pieces. */
  lemma {:induction false} SplitAllSep(s: string, isSep: char -> bool)
    requires forall i :: 0 <= i < |s| ==> isSep(s[i])
    ensures forall k :: 0 <= k < |SplitWhere(s, isSep)| ==> SplitWhere(s, isSep)[k] == ""
  {
    if |s| > 0 {
      SplitAllSep(s[1..], isSep);
    }
  }

  /** A string made only of separators has no words. */
  lemma AllSepNoWords(s: string, isSep: char -> bool)
    requires forall i :: 0 <= i < |s| ==> isSep(s[i])
    ensures Words(s, isSep) == []
  {
    SplitAllSep(s, isSep);
    NonEmptyNone(SplitWhere(s, isSep));
  }

  /** Only empty pieces leave nothing. */
  lemma {:induction false} NonEmptyNone(ps: seq<string>)
    requires forall k :: 0 <= k < |ps| ==> ps[k] == ""
    ensures NonEmpty(ps) == []
  {
    if ps != [] {
      NonEmptyNone(ps[1..]);
    }
  }

  /** The maximal runs of characters not satisfying `isSep`. */
  function Words(s: string, isSep: char -> bool): (ws: seq<string>)
    ensures forall k, i :: 0 <= k < |ws| && 0 <= i < |ws[k]| ==> !isSep(ws[k][i])
    ensures forall k :: 0 <= k < |ws| ==> ws[k] != ""
  {
    NonEmpty(SplitWhere(s, isSep))
  }

  /** A non-empty string without separators is a single word. */
  lemma WordsNoSep(s: string, isSep: char -> bool)
    requires s != "" && forall i :: 0 <= i < |s| ==> !isSep(s[i])
    ensures Words(s, isSep) == [s]
  {
    SplitNoSep(s, isSep);
    assert [s][0] == s && [s][1..] == [];
    assert NonEmpty([s]) == [s] + NonEmpty([]);
  }

  lemma {:induction false} SplitNoSep(s: string, isSep: char -> bool)
    requires forall i :: 0 <= i < |s| ==> !isSep(s[i])
    ensures SplitWhere(s, isSep) == [s]
  {
    if |s| > 0 {
      SplitNoSep(s[1..], isSep);
      assert [s[0]] + s[1..] == s;
    }
  }

  /** The string starts with white space-free text up to its first separator,
      so the first word begins with the first non-separator character. */
  lemma {:induction false} WordsFirstChar(s: string, isSep: char -> bool)
    requires |s| > 0 && !isSep(s[0])
    ensures Words(s, isSep) != [] && Words(s, isSep)[0][0] == s[0]
  {
    var rest := SplitWhere(s[1..], isSep);
    assert SplitWhere(s, isSep) == [[s[0]] + rest[0]] + rest[1..];
  }
}
