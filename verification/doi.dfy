/** The DOI grammar and extraction of `ash/doi.py`: the clean-up of a raw
    DOI string and `text_to_dois`, which runs every pattern of the Crossref
    list over a text with `findall`. */
module Doi {
  import opened Wrappers
  import Strings
  import DoiPatterns

  /** Raw values that mean "no DOI". */
  const BadDois: seq<string> := ["", "unavailable", "Unavailable"]

  /** Exact-match repairs of DOIs known to be mistyped in the retraction data. */
  const DoiFixes: map<string, string> := map["10.1177/ 0020720920940575" := "10.1177/0020720920940575"]

  /** The characters `clean` strips from both ends. */
  const StripChars: set<char> := {'.', ' ', '/'}

  /** `clean`: replace an exact fix-table key by its value, then strip `.`,
      space and `/` from both ends. */
  function Clean(s: string): string {
    var fixed := if s in DoiFixes then DoiFixes[s] else s;
    Strings.Strip(fixed, StripChars)
  }

  /** The clean form is the fix-table value when the whole input is a key and
      the input itself otherwise, with only `.`, space and `/` cut from its
      ends, and it neither starts nor ends with one of them. */
  lemma CleanSpec(s: string)
    ensures s in DoiFixes ==> Strings.IsStripped(Clean(s), DoiFixes[s], StripChars)
    ensures s !in DoiFixes ==> Strings.IsStripped(Clean(s), s, StripChars)
    ensures Strings.Unstrippable(Clean(s), StripChars)
  {
  }

  /** Cleaning a cleaned DOI changes nothing unless the cleaned form is
      itself a fix-table key. */
  lemma CleanIdempotent(s: string)
    requires Clean(s) !in DoiFixes
    ensures Clean(Clean(s)) == Clean(s)
  {
    Strings.StripUnstrippable(Clean(s), StripChars);
  }

  /** A string that is no fix-table key and has clean ends is its own clean form. */
  lemma CleanKeeps(s: string)
    requires s !in DoiFixes && Strings.Unstrippable(s, StripChars)
    ensures Clean(s) == s
  {
    Strings.StripUnstrippable(s, StripChars);
  }

  /** Every repaired DOI of the fix table is already clean. */
  lemma FixValuesStable()
    ensures forall k :: k in DoiFixes ==> Clean(DoiFixes[k]) == DoiFixes[k]
  {
    var v := "10.1177/0020720920940575";
    assert forall k :: k in DoiFixes ==> DoiFixes[k] == v;
    assert v !in DoiFixes;
    CleanKeeps(v);
  }

  /** Idempotence fails for a fix-table key followed by a strippable character:
      the first clean strips it into the key, the second then repairs it. */
  lemma CleanNotIdempotentOnKeyWithDot()
    ensures var x := "10.1177/ 0020720920940575.";
      Clean(x) == "10.1177/ 0020720920940575" && Clean(Clean(x)) == "10.1177/0020720920940575"
  {
    var x := "10.1177/ 0020720920940575.";
    var k := "10.1177/ 0020720920940575";
    assert |x| == 26 && |k| == 25;
    assert x !in DoiFixes;
    assert k in DoiFixes;
    assert Clean(x) == k by {
      assert x[..25] == k;
      assert x[25] == '.';
      assert Strings.Unstrippable(k, StripChars);
      assert Strings.StrippedAt(k, x, StripChars, 0);
      Strings.StrippedUnique(k, x, StripChars);
    }
    FixValuesStable();
  }

  /** A clean form keeps a leading digit: cleaning never empties a match
      that starts with one. */
  lemma CleanKeepsLeadingDigit(s: string)
    requires |s| > 0 && DoiPatterns.IsDigit(s[0])
    ensures |Clean(s)| > 0 && DoiPatterns.IsDigit(Clean(s)[0])
  {
    var fixed := if s in DoiFixes then DoiFixes[s] else s;
    assert DoiPatterns.IsDigit(fixed[0]);
    var r := Clean(s);
    var a :| Strings.StrippedAt(r, fixed, StripChars, a);
    assert fixed[0] !in StripChars;
    assert a == 0;
  }

  /** A pattern, compiled: the list `findall` returns for a text. */
  type Matcher = string -> seq<string>

  /** The three Crossref patterns this model does not scan concretely:
      the legacy SICI form `10.\d{4}/\d+-\d+X?(\d+)\d+<[\d\w]+:[\d\w]*>\d+.\d+.\w+;\dP`
      (whose capturing group makes `findall` return the group only), the ACS
      form `10.1021/\w\w\d++` and the Erlbaum form `10.1207/[\w\d]+\&\d+_\d+`. */
  datatype OpaquePatterns = OpaquePatterns(sici: Matcher, acs: Matcher, erlbaum: Matcher)

  /** A `/` directly followed by a digit somewhere in `t`. */
  ghost predicate HasSlashDigit(t: string) {
    exists k :: 0 <= k < |t| - 1 && t[k] == '/' && DoiPatterns.IsDigit(t[k + 1])
  }

  /** What each opaque pattern needs in a text before it can match at all:
      `/\d` for SICI, the literal `1021/` for ACS and `1207/` for Erlbaum. */
  ghost predicate Anchored(o: OpaquePatterns) {
    && (forall t :: o.sici(t) != [] ==> HasSlashDigit(t))
    && (forall t :: o.acs(t) != [] ==> Strings.Contains(t, "1021/"))
    && (forall t :: o.erlbaum(t) != [] ==> Strings.Contains(t, "1207/"))
    && (forall t :: LeadDigits(o.sici(t)) && LeadDigits(o.acs(t)) && LeadDigits(o.erlbaum(t)))
  }

  /** Every entry starts with a digit. The ACS and Erlbaum matches start with
      `10.`; the SICI pattern's group is `\d+`, which is what `findall`
      returns for it. */
  predicate LeadDigits(ms: seq<string>) {
    forall k :: 0 <= k < |ms| ==> |ms[k]| > 0 && DoiPatterns.IsDigit(ms[k][0])
  }

  /** `CROSSREF_PATTERNS`, in list order. */
  function CrossrefPatterns(o: OpaquePatterns): seq<Matcher> {
    [ t => DoiPatterns.FindAll(DoiPatterns.Generic, t),
      t => DoiPatterns.FindAll(DoiPatterns.Wiley, t),
      o.sici, o.acs, o.erlbaum ]
  }

  /** `ADDITIONAL_PATTERNS` is empty. */
  const AdditionalPatterns: seq<Matcher> := []

  /** `DOI_PATTERNS`. */
  function Patterns(o: OpaquePatterns): seq<Matcher> {
    CrossrefPatterns(o) + AdditionalPatterns
  }

  /** Every pattern's matches, pattern by pattern in list order (`chain`). */
  function AllMatches(text: string, pats: seq<Matcher>): seq<string> {
    if pats == [] then [] else pats[0](text) + AllMatches(text, pats[1..])
  }

  /** `text_to_dois`: all matches of all patterns, each cleaned. Duplicates,
      within a pattern or across patterns, are kept. */
  function TextToDois(text: string, pats: seq<Matcher>): seq<string> {
    var ms := AllMatches(text, pats);
    seq(|ms|, k requires 0 <= k < |ms| => Clean(ms[k]))
  }

  /** How many matches the patterns find in `text`, altogether. */
  function MatchCount(text: string, pats: seq<Matcher>): nat {
    if pats == [] then 0 else |pats[0](text)| + MatchCount(text, pats[1..])
  }

  lemma {:induction false} AllMatchesAppend(text: string, p: seq<Matcher>, q: seq<Matcher>)
    ensures AllMatches(text, p + q) == AllMatches(text, p) + AllMatches(text, q)
    decreases |p|
  {
    if p != [] {
      assert (p + q)[1..] == p[1..] + q;
      AllMatchesAppend(text, p[1..], q);
    } else {
      assert p + q == q;
    }
  }

  lemma {:induction false} AllMatchesCount(text: string, pats: seq<Matcher>)
    ensures |AllMatches(text, pats)| == MatchCount(text, pats)
    decreases |pats|
  {
    if pats != [] {
      AllMatchesCount(text, pats[1..]);
    }
  }

  /** The `j`-th match of pattern `i` sits after the matches of all earlier
      patterns. */
  lemma AllMatchesAt(text: string, pats: seq<Matcher>, i: nat, j: nat)
    requires i < |pats| && j < |pats[i](text)|
    ensures |AllMatches(text, pats)| == MatchCount(text, pats)
    ensures MatchCount(text, pats[..i]) + j < |AllMatches(text, pats)|
    ensures AllMatches(text, pats)[MatchCount(text, pats[..i]) + j] == pats[i](text)[j]
  {
    AllMatchesCount(text, pats);
    AllMatchesCount(text, pats[..i]);
    var a := AllMatches(text, pats[..i]);
    var b := pats[i](text);
    var c := AllMatches(text, pats[i + 1..]);
    AllMatchesSnoc(text, pats, i);
    assert pats == pats[..i + 1] + pats[i + 1..];
    AllMatchesAppend(text, pats[..i + 1], pats[i + 1..]);
    assert AllMatches(text, pats) == (a + b) + c;
    assert ((a + b) + c)[|a| + j] == b[j];
  }

  /** The output has one entry per match, and the `j`-th match of pattern `i`
      sits, cleaned, after the matches of all earlier patterns. */
  lemma TextToDoisAt(text: string, pats: seq<Matcher>, i: nat, j: nat)
    requires i < |pats| && j < |pats[i](text)|
    ensures |TextToDois(text, pats)| == MatchCount(text, pats)
    ensures MatchCount(text, pats[..i]) + j < |TextToDois(text, pats)|
    ensures TextToDois(text, pats)[MatchCount(text, pats[..i]) + j] == Clean(pats[i](text)[j])
  {
    AllMatchesAt(text, pats, i, j);
  }

  /** Extraction distributes over a split of the pattern list. */
  lemma TextToDoisAppend(text: string, p: seq<Matcher>, q: seq<Matcher>)
    ensures TextToDois(text, p + q) == TextToDois(text, p) + TextToDois(text, q)
  {
    AllMatchesAppend(text, p, q);
  }

  /** Adding one more pattern appends its matches. */
  lemma AllMatchesSnoc(text: string, pats: seq<Matcher>, i: nat)
    requires i < |pats|
    ensures AllMatches(text, pats[..i + 1]) == AllMatches(text, pats[..i]) + pats[i](text)
  {
    AllMatchesAppend(text, pats[..i], [pats[i]]);
    assert pats[..i + 1] == pats[..i] + [pats[i]];
    assert [pats[i]][1..] == [];
  }

  /** The list comprehension `[pattern.findall(text) for pattern in ...]`
      flattened with `chain`. */
  method CollectMatches(text: string, pats: seq<Matcher>) returns (matches: seq<string>)
    ensures matches == AllMatches(text, pats)
  {
    matches := [];
    for i := 0 to |pats|
      invariant matches == AllMatches(text, pats[..i])
    {
      AllMatchesSnoc(text, pats, i);
      matches := matches + pats[i](text);
    }
    assert pats[..|pats|] == pats;
  }

  /** `[clean(doi) for doi in dois]`. */
  method CleanEach(ms: seq<string>) returns (dois: seq<string>)
    ensures |dois| == |ms|
    ensures forall j :: 0 <= j < |ms| ==> dois[j] == Clean(ms[j])
  {
    dois := MapEach(ms, Clean);
  }

  /** A list comprehension `[f(m) for m in ms]`, one element at a time. */
  method MapEach(ms: seq<string>, f: string -> string) returns (r: seq<string>)
    ensures |r| == |ms|
    ensures forall j :: 0 <= j < |ms| ==> r[j] == f(ms[j])
  {
    r := [];
    for k := 0 to |ms|
      invariant |r| == k
      invariant forall j :: 0 <= j < k ==> r[j] == f(ms[j])
    {
      r := r + [f(ms[k])];
    }
  }

  /** `text_to_dois` written as the Python does it: collect every pattern's
      matches, then clean each one. */
  method ExtractDois(text: string, pats: seq<Matcher>) returns (dois: seq<string>)
    ensures dois == TextToDois(text, pats)
  {
    var matches := CollectMatches(text, pats);
    dois := CleanEach(matches);
  }

  /** Python's `any` over a list of strings: some entry is non-empty. */
  predicate AnyTruthy(xs: seq<string>) {
    exists k | 0 <= k < |xs| :: xs[k] != ""
  }

  /** The entries of `dois`, in order, for which no pattern yields a non-empty DOI. */
  function Unmatched(dois: seq<string>, pats: seq<Matcher>): (r: seq<string>)
    ensures |r| <= |dois|
    ensures forall d :: d in r <==> d in dois && !AnyTruthy(TextToDois(d, pats))
  {
    if dois == [] then []
    else
      var last := dois[|dois| - 1];
      var rest := Unmatched(dois[..|dois| - 1], pats);
      assert dois == dois[..|dois| - 1] + [last];
      if AnyTruthy(TextToDois(last, pats)) then rest else rest + [last]
  }

  /** `validate_collection`: the entries it warns about, in order; it changes nothing. */
  method ValidateCollection(dois: seq<string>, pats: seq<Matcher>) returns (warned: seq<string>)
    ensures warned == Unmatched(dois, pats)
  {
    warned := [];
    for i := 0 to |dois|
      invariant warned == Unmatched(dois[..i], pats)
    {
      assert dois[..i + 1][..i] == dois[..i];
      if !AnyTruthy(TextToDois(dois[i], pats)) {
        warned := warned + [dois[i]];
      }
    }
    assert dois[..|dois|] == dois;
  }

  /** The five Crossref patterns' matches, in list order. */
  lemma PatternsMatches(text: string, o: OpaquePatterns)
    ensures AllMatches(text, Patterns(o))
      == DoiPatterns.FindAll(DoiPatterns.Generic, text) + DoiPatterns.FindAll(DoiPatterns.Wiley, text)
         + o.sici(text) + o.acs(text) + o.erlbaum(text)
  {
    var ps := Patterns(o);
    assert ps == CrossrefPatterns(o);
    AllMatchesFive(text, ps);
  }

  /** With five patterns, the matches are theirs in order. */
  lemma AllMatchesFive(text: string, ps: seq<Matcher>)
    requires |ps| == 5
    ensures AllMatches(text, ps) == ps[0](text) + ps[1](text) + ps[2](text) + ps[3](text) + ps[4](text)
  {
    var a, b, c, d := ps[1..], ps[2..], ps[3..], ps[4..];
    assert a[1..] == b && b[1..] == c && c[1..] == d && d[1..] == [];
    assert AllMatches(text, d) == ps[4](text);
    assert AllMatches(text, c) == ps[3](text) + ps[4](text);
    assert AllMatches(text, b) == ps[2](text) + (ps[3](text) + ps[4](text));
  }

  /** Every concrete match starts with `10`. */
  lemma FindAllLeadDigits(sh: DoiPatterns.Shape, t: string)
    ensures LeadDigits(DoiPatterns.FindAll(sh, t))
  {
    var ms := DoiPatterns.FindAll(sh, t);
    DoiPatterns.FindAllShaped(sh, t);
    forall k | 0 <= k < |ms|
      ensures |ms[k]| > 0 && DoiPatterns.IsDigit(ms[k][0])
    {
      assert ms[k] in ms;
    }
  }

  /** Every match of every pattern starts with a digit. */
  lemma AllMatchesLeadDigits(text: string, o: OpaquePatterns)
    requires Anchored(o)
    ensures LeadDigits(AllMatches(text, Patterns(o)))
  {
    var ps := Patterns(o);
    forall i | 0 <= i < |ps|
      ensures LeadDigits(ps[i](text))
    {
      if i == 0 {
        FindAllLeadDigits(DoiPatterns.Generic, text);
      } else if i == 1 {
        FindAllLeadDigits(DoiPatterns.Wiley, text);
      }
    }
    AllMatchesLeadDigitsOf(text, ps);
  }

  /** When every pattern's matches start with a digit, so do all of them. */
  lemma {:induction false} AllMatchesLeadDigitsOf(text: string, pats: seq<Matcher>)
    requires forall i :: 0 <= i < |pats| ==> LeadDigits(pats[i](text))
    ensures LeadDigits(AllMatches(text, pats))
  {
    if pats != [] {
      AllMatchesLeadDigitsOf(text, pats[1..]);
      LeadDigitsConcat(pats[0](text), AllMatches(text, pats[1..]));
    }
  }

  lemma LeadDigitsConcat(a: seq<string>, b: seq<string>)
    requires LeadDigits(a) && LeadDigits(b)
    ensures LeadDigits(a + b)
  {
    forall k | 0 <= k < |a + b|
      ensures |(a + b)[k]| > 0 && DoiPatterns.IsDigit((a + b)[k][0])
    {
      if k >= |a| {
        assert (a + b)[k] == b[k - |a|];
      }
    }
  }

  /** Python's `any(text_to_dois(d))` holds exactly when some DOI was found:
      no match cleans down to the empty string. */
  lemma AnyTruthyIffFound(text: string, o: OpaquePatterns)
    requires Anchored(o)
    ensures AnyTruthy(TextToDois(text, Patterns(o))) <==> TextToDois(text, Patterns(o)) != []
  {
    var dois := TextToDois(text, Patterns(o));
    if dois != [] {
      AllMatchesLeadDigits(text, o);
      CleanKeepsLeadingDigit(AllMatches(text, Patterns(o))[0]);
      assert dois[0] != "";
    }
  }

  /** `validate_collection` warns about exactly the entries in which no
      pattern finds a DOI. */
  lemma UnmatchedIffNoDoi(dois: seq<string>, o: OpaquePatterns)
    requires Anchored(o)
    ensures forall d :: d in Unmatched(dois, Patterns(o)) <==> d in dois && TextToDois(d, Patterns(o)) == []
  {
    forall d | d in dois
      ensures AnyTruthy(TextToDois(d, Patterns(o))) <==> TextToDois(d, Patterns(o)) != []
    {
      AnyTruthyIffFound(d, o);
    }
  }
}
