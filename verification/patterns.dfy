/** The two concretely modelled DOI patterns of the Crossref list, as
    hand-written scanners with Python `re` semantics (compiled IGNORECASE):

      generic:  10.\d{4,9}/[-._;()/:A-Z0-9]+
      Wiley:    10.1002/[^\s]+

    The `.` after `10` is unescaped and matches any character but a newline.
    Both patterns end in a greedy `+` run, so the match at a position is the
    head followed by the longest non-empty run of tail characters. */
module DoiPatterns {
  import opened Wrappers

  /** `\d`, read as the ASCII digits. */
  predicate IsDigit(c: char) {
    '0' <= c <= '9'
  }

  /** The class `[-._;()/:A-Z0-9]` under IGNORECASE: besides the 52 ASCII
      letters, Python's case folding lets `A-Z` match U+0130, U+0131, U+017F
      and U+212A. */
  predicate IsGenericTailChar(c: char) {
    || c == '-' || c == '.' || c == '_' || c == ';'
    || c == '(' || c == ')' || c == '/' || c == ':'
    || 'A' <= c <= 'Z' || 'a' <= c <= 'z' || IsDigit(c)
    || c == '\U{0130}' || c == '\U{0131}' || c == '\U{017F}' || c == '\U{212A}'
  }

  /** Python's `\s` on `str`: the characters for which `str.isspace()` holds. */
  predicate IsSpace(c: char) {
    || '\t' <= c <= '\r'
    || '\U{001C}' <= c <= ' '
    || c == '\U{0085}' || c == '\U{00A0}' || c == '\U{1680}'
    || '\U{2000}' <= c <= '\U{200A}'
    || c == '\U{2028}' || c == '\U{2029}' || c == '\U{202F}'
    || c == '\U{205F}' || c == '\U{3000}'
  }

  datatype Shape = Generic | Wiley

  /** The character class of the pattern's final `+` run. */
  predicate IsTailChar(sh: Shape, c: char) {
    match sh
    case Generic => IsGenericTailChar(c)
    case Wiley => !IsSpace(c)
  }

  /** Length of the longest run of characters satisfying `p` from index `j`. */
  function Run(t: string, j: nat, p: char -> bool): (n: nat)
    requires j <= |t|
    ensures j + n <= |t|
    ensures forall k :: j <= k < j + n ==> p(t[k])
    ensures j + n == |t| || !p(t[j + n])
    decreases |t| - j
  {
    if j < |t| && p(t[j]) then 1 + Run(t, j + 1, p) else 0
  }

  /** Where the tail of a match at `i` begins: after `10`, one non-newline
      character, and then `\d{4,9}/` (generic) or `1002/` (Wiley). Because
      `/` is not a digit, the backtracking `\d{4,9}` succeeds exactly when the
      whole digit run has 4 to 9 digits and is followed by `/`. */
  function TailStart(sh: Shape, t: string, i: nat): (r: Option<nat>)
    requires i <= |t|
    ensures r.Some? ==> i + 8 <= r.value <= |t|
  {
    if i + 3 > |t| || t[i] != '1' || t[i + 1] != '0' || t[i + 2] == '\n' then None
    else match sh
      case Generic =>
        var k := Run(t, i + 3, IsDigit);
        if 4 <= k <= 9 && i + 3 + k < |t| && t[i + 3 + k] == '/' then Some(i + 4 + k) else None
      case Wiley =>
        if i + 8 <= |t| && t[i + 3..i + 8] == "1002/" then Some(i + 8) else None
  }

  /** End of the match that starts exactly at `i`, if there is one. */
  function MatchAt(sh: Shape, t: string, i: nat): (r: Option<nat>)
    requires i <= |t|
    ensures r.Some? ==> i < r.value <= |t|
  {
    match TailStart(sh, t, i)
    case None => None
    case Some(j) =>
      var n := Run(t, j, c => IsTailChar(sh, c));
      if n >= 1 then Some(j + n) else None
  }

  /** Declarative head of a match at `i` whose tail begins at `j`. */
  ghost predicate HeadAt(sh: Shape, t: string, i: int, j: int) {
    && 0 <= i && i + 3 <= |t|
    && t[i] == '1' && t[i + 1] == '0' && t[i + 2] != '\n'
    && match sh
       case Generic =>
         && i + 8 <= j <= i + 13 && j <= |t|
         && (forall k :: i + 3 <= k < j - 1 ==> IsDigit(t[k]))
         && t[j - 1] == '/'
       case Wiley =>
         && j == i + 8 && j <= |t|
         && t[i + 3..j] == "1002/"
  }

  /** `t[j..e]` is a non-empty run of tail characters that cannot be extended. */
  ghost predicate IsTailRun(sh: Shape, t: string, j: int, e: int) {
    && 0 <= j < e <= |t|
    && (forall k :: j <= k < e ==> IsTailChar(sh, t[k]))
    && (e == |t| || !IsTailChar(sh, t[e]))
  }

  /** Declarative regex semantics: `t[i..e]` is the greedy match at `i`. */
  ghost predicate IsMatch(sh: Shape, t: string, i: int, e: int) {
    exists j :: HeadAt(sh, t, i, j) && IsTailRun(sh, t, j, e)
  }

  /** A run counted by `Run` is determined by where it stops. */
  lemma RunStopsAt(t: string, j: nat, b: nat, p: char -> bool)
    requires j <= b <= |t|
    requires forall k :: j <= k < b ==> p(t[k])
    requires b == |t| || !p(t[b])
    ensures Run(t, j, p) == b - j
  {
  }

  /** Every match the scanner reports is a match of the regex. */
  lemma MatchAtSound(sh: Shape, t: string, i: nat)
    requires i <= |t| && MatchAt(sh, t, i).Some?
    ensures IsMatch(sh, t, i, MatchAt(sh, t, i).value)
  {
    var j := TailStart(sh, t, i).value;
    var e := MatchAt(sh, t, i).value;
    assert HeadAt(sh, t, i, j);
    assert IsTailRun(sh, t, j, e);
  }

  /** The head found declaratively is the one the scanner finds. */
  lemma HeadAtTailStart(sh: Shape, t: string, i: nat, j: int)
    requires i <= |t| && HeadAt(sh, t, i, j)
    ensures TailStart(sh, t, i) == Some(j)
  {
    if sh.Generic? {
      RunStopsAt(t, i + 3, j - 1, IsDigit);
    }
  }

  /** Every match of the regex is found by the scanner. */
  lemma MatchAtComplete(sh: Shape, t: string, i: nat, e: int)
    requires i <= |t| && IsMatch(sh, t, i, e)
    ensures MatchAt(sh, t, i) == Some(e)
  {
    var j :| HeadAt(sh, t, i, j) && IsTailRun(sh, t, j, e);
    HeadAtTailStart(sh, t, i, j);
    TailRunLength(sh, t, j, e);
  }

  /** A maximal run of tail characters is the run the scanner measures. */
  lemma TailRunLength(sh: Shape, t: string, j: int, e: int)
    requires IsTailRun(sh, t, j, e)
    ensures Run(t, j, c => IsTailChar(sh, c)) == e - j
  {
    RunStopsAt(t, j, e, c => IsTailChar(sh, c));
  }

  /** The scanner agrees with the declarative regex semantics, both ways. */
  lemma MatchAtIsMatch(sh: Shape, t: string, i: nat, e: int)
    requires i <= |t|
    ensures MatchAt(sh, t, i) == Some(e) <==> IsMatch(sh, t, i, e)
  {
    if MatchAt(sh, t, i) == Some(e) {
      MatchAtSound(sh, t, i);
    }
    if IsMatch(sh, t, i, e) {
      MatchAtComplete(sh, t, i, e);
    }
  }

  /** Position `j` lies inside none of the spans. */
  ghost predicate Uncovered(spans: seq<(nat, nat)>, j: int) {
    forall k :: 0 <= k < |spans| ==> !(spans[k].0 <= j < spans[k].1)
  }

  /** `r` is a left-to-right list of non-overlapping matches starting at or
      after `i`, and no match starts at any position from `i` on that the
      list leaves uncovered. */
  ghost predicate IsScanFrom(sh: Shape, t: string, i: nat, r: seq<(nat, nat)>) {
    && (forall k :: 0 <= k < |r| ==> i <= r[k].0 <= |t| && MatchAt(sh, t, r[k].0) == Some(r[k].1))
    && (forall k1, k2 :: 0 <= k1 < k2 < |r| ==> r[k1].1 <= r[k2].0)
    && (forall j :: i <= j <= |t| && Uncovered(r, j) ==> MatchAt(sh, t, j) == None)
  }

  lemma ScanConsMatches(sh: Shape, t: string, i: nat, e: nat, rest: seq<(nat, nat)>)
    requires i < |t| && MatchAt(sh, t, i) == Some(e)
    requires forall k :: 0 <= k < |rest| ==> e <= rest[k].0 <= |t| && MatchAt(sh, t, rest[k].0) == Some(rest[k].1)
    ensures var r := [(i, e)] + rest;
      forall k :: 0 <= k < |r| ==> i <= r[k].0 <= |t| && MatchAt(sh, t, r[k].0) == Some(r[k].1)
  {
    var r := [(i, e)] + rest;
    forall k | 0 <= k < |r|
      ensures i <= r[k].0 <= |t| && MatchAt(sh, t, r[k].0) == Some(r[k].1)
    {
      if k > 0 { assert r[k] == rest[k - 1]; }
    }
  }

  lemma ScanConsOrdered(i: nat, e: nat, rest: seq<(nat, nat)>)
    requires forall k :: 0 <= k < |rest| ==> e <= rest[k].0
    requires forall k1, k2 :: 0 <= k1 < k2 < |rest| ==> rest[k1].1 <= rest[k2].0
    ensures var r := [(i, e)] + rest;
      forall k1, k2 :: 0 <= k1 < k2 < |r| ==> r[k1].1 <= r[k2].0
  {
    var r := [(i, e)] + rest;
    forall k1, k2 | 0 <= k1 < k2 < |r|
      ensures r[k1].1 <= r[k2].0
    {
      assert r[k2] == rest[k2 - 1];
      if k1 > 0 { assert r[k1] == rest[k1 - 1]; }
    }
  }

  lemma ScanConsUncovered(i: nat, e: nat, rest: seq<(nat, nat)>, j: int)
    requires Uncovered([(i, e)] + rest, j)
    ensures !(i <= j < e) && Uncovered(rest, j)
  {
    var r := [(i, e)] + rest;
    assert r[0] == (i, e);
    forall k | 0 <= k < |rest|
      ensures !(rest[k].0 <= j < rest[k].1)
    {
      assert r[k + 1] == rest[k];
    }
  }

  lemma ScanCons(sh: Shape, t: string, i: nat, e: nat, rest: seq<(nat, nat)>)
    requires i < |t| && MatchAt(sh, t, i) == Some(e)
    requires IsScanFrom(sh, t, e, rest)
    ensures IsScanFrom(sh, t, i, [(i, e)] + rest)
  {
    var r := [(i, e)] + rest;
    ScanConsMatches(sh, t, i, e, rest);
    ScanConsOrdered(i, e, rest);
    forall j | i <= j <= |t| && Uncovered(r, j)
      ensures MatchAt(sh, t, j) == None
    {
      ScanConsUncovered(i, e, rest, j);
    }
  }

  lemma ScanSkip(sh: Shape, t: string, i: nat, rest: seq<(nat, nat)>)
    requires i < |t| && MatchAt(sh, t, i) == None
    requires IsScanFrom(sh, t, i + 1, rest)
    ensures IsScanFrom(sh, t, i, rest)
  {
  }

  /** Python's `findall` from index `i`: the leftmost match, then the scan
      resumes where it ended. */
  function Spans(sh: Shape, t: string, i: nat): (r: seq<(nat, nat)>)
    requires i <= |t|
    ensures IsScanFrom(sh, t, i, r)
    decreases |t| - i
  {
    if i == |t| then
      assert MatchAt(sh, t, i) == None;
      []
    else match MatchAt(sh, t, i)
      case Some(e) =>
        var rest := Spans(sh, t, e);
        ScanCons(sh, t, i, e, rest);
        [(i, e)] + rest
      case None =>
        var rest := Spans(sh, t, i + 1);
        ScanSkip(sh, t, i, rest);
        rest
  }

  /** The matched substrings, in scan order. */
  function FindAll(sh: Shape, t: string): (r: seq<string>)
    ensures |r| == |Spans(sh, t, 0)|
    ensures forall k :: 0 <= k < |r| ==> r[k] == t[Spans(sh, t, 0)[k].0..Spans(sh, t, 0)[k].1]
  {
    var sp := Spans(sh, t, 0);
    seq(|sp|, k requires 0 <= k < |sp| => t[sp[k].0..sp[k].1])
  }

  /** A scan from a position where a match starts begins with that match. */
  lemma ScanFromMatch(sh: Shape, t: string, i: nat, e: nat, r: seq<(nat, nat)>)
    requires i < |t| && MatchAt(sh, t, i) == Some(e)
    requires IsScanFrom(sh, t, i, r)
    ensures r != [] && r[0] == (i, e)
  {
    assert !Uncovered(r, i);
    var k :| 0 <= k < |r| && r[k].0 <= i < r[k].1;
    assert MatchAt(sh, t, r[0].0) == Some(r[0].1);
    assert k == 0;
  }

  /** What follows the first match of a scan is a scan from its end. */
  lemma ScanRest(sh: Shape, t: string, i: nat, e: nat, r: seq<(nat, nat)>)
    requires r != [] && r[0] == (i, e) && e <= |t|
    requires IsScanFrom(sh, t, i, r)
    ensures IsScanFrom(sh, t, e, r[1..])
  {
    var rest := r[1..];
    forall k | 0 <= k < |rest|
      ensures e <= rest[k].0
    {
      assert r[0].1 <= r[k + 1].0;
    }
    forall k1, k2 | 0 <= k1 < k2 < |rest|
      ensures rest[k1].1 <= rest[k2].0
    {
      assert r[k1 + 1].1 <= r[k2 + 1].0;
    }
    forall j | e <= j <= |t| && Uncovered(rest, j)
      ensures MatchAt(sh, t, j) == None
    {
      assert Uncovered(r, j) by {
        forall k | 0 <= k < |r|
          ensures !(r[k].0 <= j < r[k].1)
        {
          if k > 0 { assert r[k] == rest[k - 1]; }
        }
      }
    }
  }

  /** A scan from a position where no match starts is a scan from the next one. */
  lemma ScanPastNoMatch(sh: Shape, t: string, i: nat, r: seq<(nat, nat)>)
    requires i < |t| && MatchAt(sh, t, i) == None
    requires IsScanFrom(sh, t, i, r)
    ensures IsScanFrom(sh, t, i + 1, r)
  {
    forall k | 0 <= k < |r|
      ensures i + 1 <= r[k].0
    {
      assert MatchAt(sh, t, r[k].0) == Some(r[k].1);
    }
  }

  /** A scan is determined by where it starts: Python's `findall` is the
      only leftmost, non-overlapping reading of the text. */
  lemma {:induction false} ScanUnique(sh: Shape, t: string, i: nat, r: seq<(nat, nat)>)
    requires i <= |t| && IsScanFrom(sh, t, i, r)
    ensures r == Spans(sh, t, i)
    decreases |t| - i
  {
    if i == |t| {
      ScanAtEnd(sh, t, r);
    } else if MatchAt(sh, t, i).Some? {
      var e := MatchAt(sh, t, i).value;
      ScanSplit(sh, t, i, e, r);
      ScanUnique(sh, t, e, r[1..]);
      SpansStep(sh, t, i);
    } else {
      ScanPastNoMatch(sh, t, i, r);
      ScanUnique(sh, t, i + 1, r);
      SpansStep(sh, t, i);
    }
  }

  /** A scan from where a match starts is that match followed by a scan
      from its end. */
  lemma ScanSplit(sh: Shape, t: string, i: nat, e: nat, r: seq<(nat, nat)>)
    requires i < |t| && MatchAt(sh, t, i) == Some(e)
    requires IsScanFrom(sh, t, i, r)
    ensures r != [] && r == [(i, e)] + r[1..] && IsScanFrom(sh, t, e, r[1..])
  {
    ScanFromMatch(sh, t, i, e, r);
    ScanRest(sh, t, i, e, r);
  }

  lemma ScanAtEnd(sh: Shape, t: string, r: seq<(nat, nat)>)
    requires IsScanFrom(sh, t, |t|, r)
    ensures r == [] == Spans(sh, t, |t|)
  {
    if r != [] {
      ScanFirst(sh, t, |t|, r);
    }
  }

  /** The first span of a scan from `i` is a match starting at or after `i`. */
  lemma ScanFirst(sh: Shape, t: string, i: nat, r: seq<(nat, nat)>)
    requires r != [] && IsScanFrom(sh, t, i, r)
    ensures i <= r[0].0 < r[0].1 <= |t|
  {
    assert MatchAt(sh, t, r[0].0) == Some(r[0].1);
  }

  /** One step of the `findall` loop. */
  lemma SpansStep(sh: Shape, t: string, i: nat)
    requires i < |t|
    ensures MatchAt(sh, t, i).Some? ==>
      Spans(sh, t, i) == [(i, MatchAt(sh, t, i).value)] + Spans(sh, t, MatchAt(sh, t, i).value)
    ensures MatchAt(sh, t, i).None? ==> Spans(sh, t, i) == Spans(sh, t, i + 1)
  {
  }

  /** Declarative `findall`: every span is a regex match, spans are ordered
      and disjoint, and no match of the regex starts at an uncovered position. */
  ghost predicate IsFindAll(sh: Shape, t: string, r: seq<(nat, nat)>) {
    && (forall k :: 0 <= k < |r| ==> IsMatch(sh, t, r[k].0, r[k].1))
    && (forall k1, k2 :: 0 <= k1 < k2 < |r| ==> r[k1].1 <= r[k2].0)
    && (forall j, e :: 0 <= j <= |t| && Uncovered(r, j) ==> !IsMatch(sh, t, j, e))
  }

  /** The scanner computes exactly the declarative `findall`, both ways. */
  lemma SpansAreFindAll(sh: Shape, t: string, r: seq<(nat, nat)>)
    ensures IsFindAll(sh, t, r) <==> r == Spans(sh, t, 0)
  {
    if IsFindAll(sh, t, r) {
      forall k | 0 <= k < |r|
        ensures r[k].0 <= |t| && MatchAt(sh, t, r[k].0) == Some(r[k].1)
      {
        MatchAtComplete(sh, t, r[k].0, r[k].1);
      }
      forall j | 0 <= j <= |t| && Uncovered(r, j)
        ensures MatchAt(sh, t, j) == None
      {
        if MatchAt(sh, t, j).Some? {
          MatchAtSound(sh, t, j);
        }
      }
      ScanUnique(sh, t, 0, r);
    }
    if r == Spans(sh, t, 0) {
      forall k | 0 <= k < |r|
        ensures IsMatch(sh, t, r[k].0, r[k].1)
      {
        MatchAtSound(sh, t, r[k].0);
      }
      forall j, e | 0 <= j <= |t| && Uncovered(r, j)
        ensures !IsMatch(sh, t, j, e)
      {
        MatchAtIsMatch(sh, t, j, e);
      }
    }
  }

  /** A matched string on its own: `10`, a non-newline character, the head's
      digits and `/` (generic) or `1002/` (Wiley), then a non-empty tail. */
  ghost predicate Shaped(sh: Shape, m: string) {
    exists j :: HeadAt(sh, m, 0, j) && j < |m| && forall k :: j <= k < |m| ==> IsTailChar(sh, m[k])
  }

  lemma MatchShaped(sh: Shape, t: string, i: nat, e: int)
    requires IsMatch(sh, t, i, e)
    ensures Shaped(sh, t[i..e])
  {
    var j :| HeadAt(sh, t, i, j) && IsTailRun(sh, t, j, e);
    var m := t[i..e];
    assert forall k :: 0 <= k < |m| ==> m[k] == t[i + k];
    if sh.Wiley? {
      assert m[3..8] == t[i + 3..i + 8];
    }
    assert HeadAt(sh, m, 0, j - i);
  }

  /** Every string `findall` returns for the pattern has the pattern's shape. */
  lemma FindAllShaped(sh: Shape, t: string)
    ensures forall m :: m in FindAll(sh, t) ==> Shaped(sh, m)
  {
    var sp := Spans(sh, t, 0);
    forall m | m in FindAll(sh, t)
      ensures Shaped(sh, m)
    {
      var k :| 0 <= k < |sp| && m == t[sp[k].0..sp[k].1];
      MatchAtSound(sh, t, sp[k].0);
      MatchShaped(sh, t, sp[k].0, sp[k].1);
    }
  }

  /** A match can only start at a `1` followed by a `0`. */
  lemma MatchNeedsTen(sh: Shape, t: string, i: nat)
    requires i <= |t| && MatchAt(sh, t, i).Some?
    ensures i + 1 < |t| && t[i] == '1' && t[i + 1] == '0'
  {
  }

  /** The scan passes over a stretch of text that has no `1` in it. */
  lemma {:induction false} SpansSkip(sh: Shape, t: string, a: nat, b: nat)
    requires a <= b <= |t| && '1' !in t[a..b]
    ensures Spans(sh, t, a) == Spans(sh, t, b)
    decreases b - a
  {
    if a < b {
      assert t[a] in t[a..b];
      assert MatchAt(sh, t, a) == None;
      SpansStep(sh, t, a);
      assert t[a + 1..b] == t[a..b][1..];
      SpansSkip(sh, t, a + 1, b);
    }
  }

  /** The scan passes over a position where no match starts. */
  lemma SpansSkipOne(sh: Shape, t: string, a: nat)
    requires a < |t| && MatchAt(sh, t, a) == None
    ensures Spans(sh, t, a) == Spans(sh, t, a + 1)
  {
    SpansStep(sh, t, a);
  }

  /** The scan from the start of a match reports it and goes on from its end. */
  lemma SpansTakeMatch(sh: Shape, t: string, i: nat, e: int)
    requires i <= |t| && IsMatch(sh, t, i, e)
    ensures e <= |t| && Spans(sh, t, i) == [(i, e)] + Spans(sh, t, e)
  {
    MatchAtComplete(sh, t, i, e);
    SpansStep(sh, t, i);
  }

  /** A text with no `1` in it has no match at all. */
  lemma FindAllNoOne(sh: Shape, t: string)
    requires '1' !in t
    ensures FindAll(sh, t) == []
  {
    assert t[0..|t|] == t;
    SpansSkip(sh, t, 0, |t|);
  }

  /** Every match has a `/` after the start of its head; a Wiley match has
      `1002/` three characters in. */
  lemma MatchNeedsSlash(sh: Shape, t: string, i: nat)
    requires i <= |t|
    ensures MatchAt(sh, t, i).Some? ==> i + 3 <= |t| && '/' in t[i + 3..]
    ensures MatchAt(sh, t, i).Some? && sh.Wiley? ==>
      i + 8 <= |t| && t[i + 3..i + 8] == "1002/" && t[i + 7] == '/'
  {
    if MatchAt(sh, t, i).Some? {
      var j := TailStart(sh, t, i).value;
      assert t[j - 1] == '/';
      assert t[j - 1] == t[i + 3..][j - 1 - (i + 3)];
      if sh.Wiley? {
        assert t[i + 7] == t[i + 3..i + 8][4];
      }
    }
  }

  /** A text with no `/` has no match at all. */
  lemma FindAllNoSlash(sh: Shape, t: string)
    requires '/' !in t
    ensures FindAll(sh, t) == []
  {
    forall i | 0 <= i <= |t|
      ensures MatchAt(sh, t, i) == None
    {
      MatchNeedsSlash(sh, t, i);
      if i + 3 <= |t| {
        assert forall c :: c in t[i + 3..] ==> c in t;
      }
    }
    FindAllNone(sh, t);
  }

  /** When no match starts anywhere, `findall` returns nothing. */
  lemma FindAllNone(sh: Shape, t: string)
    requires forall i :: 0 <= i <= |t| ==> MatchAt(sh, t, i) == None
    ensures FindAll(sh, t) == []
  {
    ScanUnique(sh, t, 0, []);
  }

  /** A single match with no `1` before or after it is all `findall` returns. */
  lemma FindAllSole(sh: Shape, t: string, i: nat, e: int)
    requires i <= |t| && IsMatch(sh, t, i, e)
    requires '1' !in t[..i] && '1' !in t[e..]
    ensures FindAll(sh, t) == [t[i..e]]
  {
    SpansSole(sh, t, i, e);
  }

  /** The scan of such a text is the one span. */
  lemma SpansSole(sh: Shape, t: string, i: nat, e: int)
    requires i <= |t| && IsMatch(sh, t, i, e)
    requires '1' !in t[..i] && '1' !in t[e..]
    ensures e <= |t| && Spans(sh, t, 0) == [(i, e)]
  {
    assert t[0..i] == t[..i];
    SpansSkip(sh, t, 0, i);
    SpansTakeMatch(sh, t, i, e);
    SpansNone(sh, t, e);
  }

  /** The scan finds nothing in a suffix with no `1` in it. */
  lemma SpansNone(sh: Shape, t: string, a: nat)
    requires a <= |t| && '1' !in t[a..]
    ensures Spans(sh, t, a) == []
  {
    assert t[a..|t|] == t[a..];
    SpansSkip(sh, t, a, |t|);
    assert Spans(sh, t, |t|) == [];
  }

  /** A shaped match set in context is the greedy match there when what
      follows cannot extend its tail. */
  lemma ShapedEmbed(sh: Shape, pre: string, m: string, post: string)
    requires Shaped(sh, m)
    requires post == [] || !IsTailChar(sh, post[0])
    ensures IsMatch(sh, pre + m + post, |pre|, |pre| + |m|)
  {
    var t := pre + m + post;
    var i := |pre|;
    var j :| HeadAt(sh, m, 0, j) && j < |m| && forall k :: j <= k < |m| ==> IsTailChar(sh, m[k]);
    assert forall k :: 0 <= k < |m| ==> t[i + k] == m[k];
    if sh.Wiley? {
      assert t[i + 3..i + 8] == m[3..8];
    }
    assert HeadAt(sh, t, i, i + j);
    if post != [] {
      assert t[i + |m|] == post[0];
    }
    assert IsTailRun(sh, t, i + j, i + |m|);
  }
}
