/** Small string helpers shared by the model: Python's `str.strip(chars)`,
    substring search and Python's `s[:k]` slicing. */
module Strings {

  /** Drops every leading character that is in `cs`. */
  function StripLeft(s: string, cs: set<char>): (r: string)
    ensures |r| <= |s| && r == s[|s| - |r|..]
    ensures forall i :: 0 <= i < |s| - |r| ==> s[i] in cs
    ensures r == [] || r[0] !in cs
  {
    if |s| > 0 && s[0] in cs then StripLeft(s[1..], cs) else s
  }

  /** Drops every trailing character that is in `cs`. */
  function StripRight(s: string, cs: set<char>): (r: string)
    ensures |r| <= |s| && r == s[..|r|]
    ensures forall i :: |r| <= i < |s| ==> s[i] in cs
    ensures r == [] || r[|r| - 1] !in cs
  {
    if |s| > 0 && s[|s| - 1] in cs then StripRight(s[..|s| - 1], cs) else s
  }

  /** Python's `s.strip(cs)`: both ends, leading first. */
  function Strip(s: string, cs: set<char>): (r: string)
    ensures IsStripped(r, s, cs)
  {
    var l := StripLeft(s, cs);
    var r := StripRight(l, cs);
    StripBothEnds(s, cs, l, r);
    r
  }

  /** Stripping the leading run and then the trailing one cuts `s` down to
      the slice that starts where the leading run ends. */
  lemma StripBothEnds(s: string, cs: set<char>, l: string, r: string)
    requires |l| <= |s| && l == s[|s| - |l|..] && forall i :: 0 <= i < |s| - |l| ==> s[i] in cs
    requires |r| <= |l| && r == l[..|r|] && forall i :: |r| <= i < |l| ==> l[i] in cs
    ensures StrippedAt(r, s, cs, |s| - |l|)
  {
    var a := |s| - |l|;
    assert s[a..a + |r|] == l[..|r|];
    forall i | a + |r| <= i < |s|
      ensures s[i] in cs
    {
      assert s[i] == l[i - a];
    }
  }

  /** Declarative meaning of stripping: `r` is a contiguous slice of `s`,
      everything cut away on either side is in `cs`, and `r` neither starts
      nor ends with a character of `cs`. */
  ghost predicate IsStripped(r: string, s: string, cs: set<char>) {
    && Unstrippable(r, cs)
    && exists a :: StrippedAt(r, s, cs, a)
  }

  ghost predicate StrippedAt(r: string, s: string, cs: set<char>, a: int) {
    && 0 <= a <= |s| - |r|
    && r == s[a..a + |r|]
    && (forall i :: 0 <= i < a ==> s[i] in cs)
    && (forall i :: a + |r| <= i < |s| ==> s[i] in cs)
  }

  /** Neither end of `r` is a character of `cs`. */
  predicate Unstrippable(r: string, cs: set<char>) {
    r == [] || (r[0] !in cs && r[|r| - 1] !in cs)
  }

  /** A clean-ended slice with a character kept forces every other one to keep one too. */
  lemma StrippedNonEmpty(r: string, a: int, r': string, a': int, s: string, cs: set<char>)
    requires r != [] && Unstrippable(r, cs) && StrippedAt(r, s, cs, a)
    requires StrippedAt(r', s, cs, a')
    ensures r' != []
  {
    assert s[a] == r[0];
  }

  /** Two clean-ended slices of `s` with only `cs` characters cut away are equal. */
  lemma StrippedAtUnique(r: string, a: int, r': string, a': int, s: string, cs: set<char>)
    requires Unstrippable(r, cs) && StrippedAt(r, s, cs, a)
    requires Unstrippable(r', cs) && StrippedAt(r', s, cs, a')
    ensures r == r'
  {
    if r != [] {
      StrippedNonEmpty(r, a, r', a', s, cs);
      assert s[a] == r[0];
      assert s[a'] == r'[0];
      assert a == a';
      assert s[a + |r| - 1] == r[|r| - 1];
      assert s[a' + |r'| - 1] == r'[|r'| - 1];
      assert |r| == |r'|;
    } else if r' != [] {
      StrippedNonEmpty(r', a', r, a, s, cs);
    }
  }

  /** The declarative meaning pins the stripped form down uniquely. */
  lemma StrippedUnique(r: string, s: string, cs: set<char>)
    ensures IsStripped(r, s, cs) <==> r == Strip(s, cs)
  {
    if IsStripped(r, s, cs) {
      var r' := Strip(s, cs);
      var a :| StrippedAt(r, s, cs, a);
      var a' :| StrippedAt(r', s, cs, a');
      StrippedAtUnique(r, a, r', a', s, cs);
    }
  }

  /** Stripping a string whose ends are already clean changes nothing. */
  lemma StripUnstrippable(s: string, cs: set<char>)
    requires Unstrippable(s, cs)
    ensures Strip(s, cs) == s
  {
    assert StrippedAt(s, s, cs, 0);
    StrippedUnique(s, s, cs);
  }

  /** Stripping is idempotent. */
  lemma StripIdempotent(s: string, cs: set<char>)
    ensures Strip(Strip(s, cs), cs) == Strip(s, cs)
  {
    StripUnstrippable(Strip(s, cs), cs);
  }

  /** True when `needle` occurs as a contiguous slice of `s`. */
  predicate Contains(s: string, needle: string) {
    exists i | 0 <= i <= |s| :: OccursAt(s, needle, i)
  }

  /** `needle` occurs in `s` starting at index `i`. */
  predicate OccursAt(s: string, needle: string, i: int) {
    0 <= i <= |s| - |needle| && s[i..i + |needle|] == needle
  }

  /** Python's `s[:k]`: a non-negative `k` keeps at most `k` characters, a
      negative `k` drops the last `-k` characters (all of them when `-k >= |s|`). */
  function PrefixSlice(s: string, k: int): (r: string)
    ensures |r| <= |s| && r == s[..|r|]
    ensures k >= 0 ==> |r| == if k <= |s| then k else |s|
    ensures k < 0 ==> |r| == if |s| + k >= 0 then |s| + k else 0
  {
    if k >= 0 then (if k <= |s| then s[..k] else s)
    else if |s| + k >= 0 then s[..|s| + k]
    else []
  }
}
