/** The JavaScript string operations the core relies on: `length`,
    `String.prototype.trim` and `String.prototype.includes`.
    A Dafny `char` is a Unicode scalar value; JavaScript counts a character
    outside the Basic Multilingual Plane as two UTF-16 code units. */
module JsText {

  /** The characters `trim` removes: the WhiteSpace and LineTerminator
      productions of ECMA-262 (tab, vertical tab, form feed, space,
      no-break space, the byte order mark, the Unicode "Zs" space separators,
      line feed, carriage return, line and paragraph separator). */
  predicate IsWhitespace(c: char) {
    || c == '\t' || c == '\U{000B}' || c == '\U{000C}' || c == ' '
    || c == '\U{00A0}' || c == '\U{FEFF}'
    || c == '\U{1680}' || ('\U{2000}' <= c <= '\U{200A}')
    || c == '\U{202F}' || c == '\U{205F}' || c == '\U{3000}'
    || c == '\n' || c == '\r' || c == '\U{2028}' || c == '\U{2029}'
  }

  /** Every character of `s` is whitespace (vacuously so for ""). */
  predicate IsBlank(s: string) {
    forall i :: 0 <= i < |s| ==> IsWhitespace(s[i])
  }

  /** Drops leading whitespace. */
  function TrimStart(s: string): (r: string)
    ensures |r| <= |s| && r == s[|s| - |r|..]
    ensures r == [] || !IsWhitespace(r[0])
    ensures IsBlank(s[..|s| - |r|])
  {
    if |s| > 0 && IsWhitespace(s[0]) then
      var r := TrimStart(s[1..]);
      BlankCons(s[0], s[1..][..|s| - 1 - |r|]);
      assert s[..|s| - |r|] == [s[0]] + s[1..][..|s| - 1 - |r|];
      r
    else s
  }

  /** Drops trailing whitespace. */
  function TrimEnd(s: string): (r: string)
    ensures |r| <= |s| && r == s[..|r|]
    ensures r == [] || !IsWhitespace(r[|r| - 1])
    ensures IsBlank(s[|r|..])
  {
    if |s| > 0 && IsWhitespace(s[|s| - 1]) then
      var r := TrimEnd(s[..|s| - 1]);
      BlankSnoc(s[..|s| - 1][|r|..], s[|s| - 1]);
      assert s[|r|..] == s[..|s| - 1][|r|..] + [s[|s| - 1]];
      r
    else s
  }

  lemma BlankCons(c: char, t: string)
    requires IsWhitespace(c) && IsBlank(t)
    ensures IsBlank([c] + t)
  {
    assert forall i :: 1 <= i < |t| + 1 ==> ([c] + t)[i] == t[i - 1];
  }

  lemma BlankSnoc(t: string, c: char)
    requires IsBlank(t) && IsWhitespace(c)
    ensures IsBlank(t + [c])
  {
  }

  /** `s.length`: the number of UTF-16 code units, two for a character
      above U+FFFF (a surrogate pair), one for any other. */
  function Utf16Length(s: string): (n: nat)
    ensures |s| <= n <= 2 * |s|
    ensures (forall i :: 0 <= i < |s| ==> s[i] <= '\U{FFFF}') ==> n == |s|
  {
    if |s| == 0 then 0
    else (if s[0] <= '\U{FFFF}' then 1 else 2) + Utf16Length(s[1..])
  }

  /** `s.trim()`: a slice of `s` that neither starts nor ends with
      whitespace, with only whitespace dropped on either side. */
  function Trim(s: string): (r: string)
    ensures r == [] || (!IsWhitespace(r[0]) && !IsWhitespace(r[|r| - 1]))
    ensures exists i :: TrimmedAt(s, r, i)
  {
    TrimSlice(s);
    TrimEnd(TrimStart(s))
  }

  lemma TrimSlice(s: string)
    ensures TrimmedAt(s, TrimEnd(TrimStart(s)), |s| - |TrimStart(s)|)
  {
    var t := TrimStart(s);
    var r := TrimEnd(t);
    var i := |s| - |t|;
    SuffixSlices(s, t, i, |r|);
    assert r == s[i..i + |r|];
    assert IsBlank(s[..i]);
    assert IsBlank(s[i + |r|..]);
    assert TrimmedAt(s, r, i);
  }

  /** Slices of the suffix `t == s[i..]` are slices of `s` shifted by `i`. */
  lemma SuffixSlices(s: string, t: string, i: nat, m: nat)
    requires i <= |s| && t == s[i..] && m <= |t|
    ensures t[..m] == s[i..i + m] && t[m..] == s[i + m..]
  {
  }

  /** No character above U+FFFF is whitespace. */
  lemma AstralNotWhitespace(c: char)
    requires c > '\U{FFFF}'
    ensures !IsWhitespace(c)
  {
  }

  /** `r` is the slice of `s` at `i`, with only whitespace around it. */
  predicate TrimmedAt(s: string, r: string, i: int) {
    0 <= i <= |s| - |r| && r == s[i..i + |r|] && IsBlank(s[..i]) && IsBlank(s[i + |r|..])
  }

  /** A string trims to nothing exactly when it is blank. */
  lemma TrimEmptyIffBlank(s: string)
    ensures |Trim(s)| == 0 <==> IsBlank(s)
  {
    var t := TrimStart(s);
    var u := TrimEnd(t);
    if |u| == 0 {
      assert t == t[|u|..];
      assert s[..|s| - |t|] == s;
    } else if IsBlank(s) {
      assert false;
    }
  }

  /** `s.includes(k)`: `k` occurs in `s` at some index; case-sensitive, and
      "" is in every string. */
  predicate Contains(s: string, k: string): (r: bool)
    ensures k == [] ==> r
    ensures s == k ==> r
    ensures r ==> |k| <= |s|
  {
    assert k == [] || s == k ==> OccursAt(s, k, 0);
    exists i :: 0 <= i <= |s| - |k| && OccursAt(s, k, i)
  }

  /** `k` sits in `s` at index `i`. */
  predicate OccursAt(s: string, k: string, i: int) {
    0 <= i <= |s| - |k| && s[i..i + |k|] == k
  }

  /** Character-by-character comparison of `k[j..]` with `s[i + j..]`. */
  predicate MatchesAt(s: string, k: string, i: nat, j: nat)
    requires i + |k| <= |s| && j <= |k|
    decreases |k| - j
  {
    j == |k| || (s[i + j] == k[j] && MatchesAt(s, k, i, j + 1))
  }

  /** A left-to-right search for `k` in `s` from index `i` on, the way an
      engine scans; used to decide `Contains` on fixed texts. */
  predicate SearchFrom(s: string, k: string, i: nat)
    decreases |s| - i
  {
    i + |k| <= |s| && (MatchesAt(s, k, i, 0) || SearchFrom(s, k, i + 1))
  }

  lemma {:induction false} MatchesAtIff(s: string, k: string, i: nat, j: nat)
    requires i + |k| <= |s| && j <= |k|
    ensures MatchesAt(s, k, i, j) <==> s[i + j..i + |k|] == k[j..]
    decreases |k| - j
  {
    if j < |k| {
      MatchesAtIff(s, k, i, j + 1);
      if MatchesAt(s, k, i, j) {
        assert s[i + j..i + |k|] == [s[i + j]] + s[i + j + 1..i + |k|];
        assert k[j..] == [k[j]] + k[j + 1..];
      }
    }
  }

  lemma {:induction false} SearchFromIff(s: string, k: string, i: nat)
    ensures SearchFrom(s, k, i) <==> exists j :: i <= j && OccursAt(s, k, j)
    decreases |s| - i
  {
    if i + |k| <= |s| {
      MatchesAtIff(s, k, i, 0);
      SearchFromIff(s, k, i + 1);
      if SearchFrom(s, k, i) && MatchesAt(s, k, i, 0) {
        assert OccursAt(s, k, i);
      }
      if exists j :: i <= j && OccursAt(s, k, j) {
        var j :| i <= j && OccursAt(s, k, j);
        assert j == i || i + 1 <= j;
      }
    }
  }

  /** The search finds `k` exactly when `k` occurs in `s`. */
  lemma SearchIff(s: string, k: string)
    ensures SearchFrom(s, k, 0) <==> Contains(s, k)
  {
    SearchFromIff(s, k, 0);
  }

  /** Every character covered by an occurrence of `k` is a character of `k`. */
  lemma OccurrenceHas(s: string, k: string, i: int, p: int)
    requires OccursAt(s, k, i) && i <= p < i + |k|
    ensures s[p] in k
  {
    assert s[p] == s[i..i + |k|][p - i];
  }

  /** Appending text keeps an occurrence where it was. */
  lemma ContainsExtend(a: string, t: string, k: string)
    requires Contains(a, k)
    ensures Contains(a + t, k)
  {
    var i :| OccursAt(a, k, i);
    assert OccursAt(a, k, i);
    assert (a + t)[i..i + |k|] == a[i..i + |k|];
    assert OccursAt(a + t, k, i);
  }

  /** Prepending text shifts an occurrence right by the prefix length. */
  lemma ContainsPrepend(t: string, b: string, k: string)
    requires Contains(b, k)
    ensures Contains(t + b, k)
  {
    var i :| OccursAt(b, k, i);
    assert OccursAt(b, k, i);
    assert (t + b)[|t| + i..|t| + i + |k|] == b[i..i + |k|];
    assert OccursAt(t + b, k, |t| + i);
  }

  /** An occurrence of `k` cannot span a character that `k` does not contain,
      so splitting a text at such a character splits the search. */
  lemma ContainsSplit(a: string, c: char, b: string, k: string)
    requires c !in k
    ensures Contains(a + [c] + b, k) <==> Contains(a, k) || Contains(b, k)
  {
    var s := a + [c] + b;
    if Contains(s, k) {
      var i :| OccursAt(s, k, i);
      assert OccursAt(s, k, i);
      if i + |k| <= |a| {
        assert s[i..i + |k|] == a[i..i + |k|];
        assert OccursAt(a, k, i);
      } else if i > |a| {
        var m := i - |a| - 1;
        assert b == s[|a| + 1..];
        assert s[i..i + |k|] == b[m..m + |k|];
        assert OccursAt(b, k, m);
      } else {
        OccurrenceHas(s, k, i, |a|);
      }
    }
    if Contains(a, k) {
      ContainsExtend(a, [c] + b, k);
      assert a + ([c] + b) == s;
    }
    if Contains(b, k) {
      ContainsExtend(b, [], k);
      ContainsPrepend(a + [c], b, k);
    }
  }
}
