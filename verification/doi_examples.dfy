/** What DOI extraction yields on texts and strings the repository's tests
    use, proved of the model for every choice of the three opaque patterns
    that respects what each of them needs in a text before it can match. */
module DoiExamples {
  import opened Wrappers
  import Strings
  import DoiPatterns
  import opened Doi

  /** `/` occurs in `t` exactly once, at index `p`. */
  predicate SlashOnlyAt(t: string, p: int) {
    0 <= p < |t| && t[p] == '/' && '/' !in t[..p] && '/' !in t[p + 1..]
  }

  lemma SlashPositions(t: string, p: int)
    requires SlashOnlyAt(t, p)
    ensures forall k :: 0 <= k < |t| && t[k] == '/' ==> k == p
  {
    forall k | 0 <= k < |t| && k != p
      ensures t[k] != '/'
    {
      if k < p {
        assert t[k] == t[..p][k];
      } else {
        assert t[k] == t[p + 1..][k - p - 1];
      }
    }
  }

  /** A needle ending in `/` can only sit right before the one `/` of `t`. */
  lemma NeedleAbsent(t: string, p: int, needle: string)
    requires SlashOnlyAt(t, p) && |needle| > 0 && needle[|needle| - 1] == '/'
    requires p + 1 < |needle| || t[p + 1 - |needle|..p + 1] != needle
    ensures !Strings.Contains(t, needle)
  {
    SlashPositions(t, p);
    forall i | 0 <= i <= |t| - |needle|
      ensures !Strings.OccursAt(t, needle, i)
    {
      var last := i + |needle| - 1;
      assert t[i..i + |needle|][|needle| - 1] == t[last];
      if last == p {
        assert t[i..i + |needle|] == t[p + 1 - |needle|..p + 1];
      }
    }
  }

  /** A needle with a `/` in it is absent from a text without one. */
  lemma NeedleAbsentNoSlash(t: string, needle: string)
    requires '/' !in t && '/' in needle
    ensures !Strings.Contains(t, needle)
  {
    var k :| 0 <= k < |needle| && needle[k] == '/';
    forall i | 0 <= i <= |t| - |needle|
      ensures !Strings.OccursAt(t, needle, i)
    {
      assert t[i..i + |needle|][k] == t[i + k];
      assert t[i + k] in t;
    }
  }

  /** The one `/` of `t` is not followed by a digit. */
  lemma NoSlashDigit(t: string, p: int)
    requires SlashOnlyAt(t, p) && (p + 1 == |t| || !DoiPatterns.IsDigit(t[p + 1]))
    ensures !HasSlashDigit(t)
  {
    SlashPositions(t, p);
  }

  /** The opaque patterns find nothing in a text that lacks what they need. */
  lemma OpaqueSilent(o: OpaquePatterns, t: string, p: int)
    requires Anchored(o) && SlashOnlyAt(t, p)
    requires p + 1 == |t| || !DoiPatterns.IsDigit(t[p + 1])
    requires p < 4 || t[p - 4..p + 1] != "1021/"
    requires p < 4 || t[p - 4..p + 1] != "1207/"
    ensures o.sici(t) == [] && o.acs(t) == [] && o.erlbaum(t) == []
  {
    NoSlashDigit(t, p);
    NeedleAbsent(t, p, "1021/");
    NeedleAbsent(t, p, "1207/");
  }

  /** No Wiley match starts anywhere in a text with one `/` and no `1002`
      right before it. */
  lemma NoWiley(t: string, p: int)
    requires SlashOnlyAt(t, p) && (p < 7 || t[p - 4..p + 1] != "1002/")
    ensures DoiPatterns.FindAll(DoiPatterns.Wiley, t) == []
  {
    SlashPositions(t, p);
    forall i | 0 <= i <= |t|
      ensures DoiPatterns.MatchAt(DoiPatterns.Wiley, t, i) == None
    {
      DoiPatterns.MatchNeedsSlash(DoiPatterns.Wiley, t, i);
      if i + 7 == p {
        assert t[p - 4..p + 1] == t[i + 3..i + 8];
      }
    }
    DoiPatterns.FindAllNone(DoiPatterns.Wiley, t);
  }

  /** Without a `/` no pattern finds anything. */
  lemma NoSlashYieldsNothing(o: OpaquePatterns, t: string)
    requires Anchored(o) && '/' !in t
    ensures TextToDois(t, Patterns(o)) == []
  {
    DoiPatterns.FindAllNoSlash(DoiPatterns.Generic, t);
    DoiPatterns.FindAllNoSlash(DoiPatterns.Wiley, t);
    NoSlashNoSlashDigit(t);
    NeedleAbsentNoSlash(t, "1021/");
    NeedleAbsentNoSlash(t, "1207/");
    PatternsMatches(t, o);
  }

  lemma NoSlashNoSlashDigit(t: string)
    requires '/' !in t
    ensures !HasSlashDigit(t)
  {
    forall k | 0 <= k < |t|
      ensures t[k] != '/'
    {
      assert t[k] in t;
    }
  }

  /** A number is not a DOI: `"12356.23"` yields nothing. */
  lemma NumberYieldsNothing(o: OpaquePatterns)
    requires Anchored(o)
    ensures TextToDois("12356.23", Patterns(o)) == []
  {
    NoSlashYieldsNothing(o, "12356.23");
  }

  /** Where the three pieces of `pre + m + post` sit. */
  lemma EmbedSlices(pre: string, m: string, post: string)
    ensures (pre + m + post)[..|pre|] == pre
    ensures (pre + m + post)[|pre|..|pre| + |m|] == m
    ensures (pre + m + post)[|pre| + |m|..] == post
    ensures forall k :: 0 <= k < |m| ==> (pre + m + post)[|pre| + k] == m[k]
  {
  }

  /** The one `/` of `m` stays the only one when `m` sits between texts
      without any. */
  lemma SlashOnlyEmbed(pre: string, m: string, post: string, q: int)
    requires SlashOnlyAt(m, q) && '/' !in pre && '/' !in post
    ensures SlashOnlyAt(pre + m + post, |pre| + q)
  {
    var t := pre + m + post;
    var p := |pre| + q;
    EmbedSlices(pre, m, post);
    assert t[..p] == pre + m[..q];
    assert t[p + 1..] == m[q + 1..] + post;
  }

  lemma CleanedOnce(m: string)
    ensures var ms := [m] + []; seq(|ms|, k requires 0 <= k < |ms| => Clean(ms[k])) == [Clean(m)]
  {
  }

  /** The output when the opaque patterns are silent: the generic and the
      Wiley matches, cleaned, in that order. */
  lemma OutputWhenOpaqueSilent(o: OpaquePatterns, t: string)
    requires o.sici(t) == [] && o.acs(t) == [] && o.erlbaum(t) == []
    ensures var ms := DoiPatterns.FindAll(DoiPatterns.Generic, t) + DoiPatterns.FindAll(DoiPatterns.Wiley, t);
      TextToDois(t, Patterns(o)) == seq(|ms|, k requires 0 <= k < |ms| => Clean(ms[k]))
  {
    PatternsMatches(t, o);
  }

  /** The generic pattern finds exactly the embedded DOI. */
  lemma GenericFindsEmbedded(pre: string, m: string, post: string)
    requires DoiPatterns.Shaped(DoiPatterns.Generic, m)
    requires '1' !in pre && '1' !in post
    requires post == [] || !DoiPatterns.IsGenericTailChar(post[0])
    ensures DoiPatterns.FindAll(DoiPatterns.Generic, pre + m + post) == [m]
  {
    EmbedSlices(pre, m, post);
    DoiPatterns.ShapedEmbed(DoiPatterns.Generic, pre, m, post);
    DoiPatterns.FindAllSole(DoiPatterns.Generic, pre + m + post, |pre|, |pre| + |m|);
  }

  /** Neither the Wiley nor the opaque patterns fire on the embedded DOI. */
  lemma OthersSilentOnEmbedded(o: OpaquePatterns, pre: string, m: string, post: string, q: int)
    requires Anchored(o)
    requires SlashOnlyAt(m, q) && 7 <= q && q + 1 < |m| && !DoiPatterns.IsDigit(m[q + 1])
    requires m[q - 4..q + 1] != "1021/" && m[q - 4..q + 1] != "1207/" && m[q - 4..q + 1] != "1002/"
    requires '/' !in pre && '/' !in post
    ensures DoiPatterns.FindAll(DoiPatterns.Wiley, pre + m + post) == []
    ensures o.sici(pre + m + post) == [] && o.acs(pre + m + post) == [] && o.erlbaum(pre + m + post) == []
  {
    var t := pre + m + post;
    var p := |pre| + q;
    EmbedSlices(pre, m, post);
    SlashOnlyEmbed(pre, m, post, q);
    assert t[p - 4..p + 1] == m[q - 4..q + 1];
    assert t[p + 1] == m[q + 1];
    NoWiley(t, p);
    OpaqueSilent(o, t, p);
  }

  /** One generic DOI between texts with no `1` and no `/` is the whole
      output, cleaned: no Wiley prefix, no `/` before a digit and neither
      `1021/` nor `1207/` for the other patterns to catch. */
  lemma SoleGenericDoi(o: OpaquePatterns, pre: string, m: string, post: string, q: int)
    requires Anchored(o)
    requires DoiPatterns.Shaped(DoiPatterns.Generic, m) && SlashOnlyAt(m, q)
    requires 7 <= q && q + 1 < |m| && !DoiPatterns.IsDigit(m[q + 1])
    requires m[q - 4..q + 1] != "1021/" && m[q - 4..q + 1] != "1207/" && m[q - 4..q + 1] != "1002/"
    requires '1' !in pre && '/' !in pre && '1' !in post && '/' !in post
    requires post == [] || !DoiPatterns.IsGenericTailChar(post[0])
    ensures TextToDois(pre + m + post, Patterns(o)) == [Clean(m)]
  {
    GenericFindsEmbedded(pre, m, post);
    OthersSilentOnEmbedded(o, pre, m, post, q);
    OutputWhenOpaqueSilent(o, pre + m + post);
    CleanedOnce(m);
  }

  /** A Wiley DOI on its own is found by both the generic and the Wiley
      pattern. */
  lemma WileyFindsWhole(m: string)
    requires DoiPatterns.Shaped(DoiPatterns.Generic, m) && DoiPatterns.Shaped(DoiPatterns.Wiley, m)
    ensures DoiPatterns.FindAll(DoiPatterns.Generic, m) == [m]
    ensures DoiPatterns.FindAll(DoiPatterns.Wiley, m) == [m]
  {
    assert "" + m + "" == m;
    assert m[..0] == [] && m[|m|..] == [] && m[0..|m|] == m;
    DoiPatterns.ShapedEmbed(DoiPatterns.Generic, "", m, "");
    DoiPatterns.FindAllSole(DoiPatterns.Generic, m, 0, |m|);
    DoiPatterns.ShapedEmbed(DoiPatterns.Wiley, "", m, "");
    DoiPatterns.FindAllSole(DoiPatterns.Wiley, m, 0, |m|);
  }

  lemma CleanedTwice(m: string)
    ensures var ms := [m] + [m]; seq(|ms|, k requires 0 <= k < |ms| => Clean(ms[k])) == [Clean(m), Clean(m)]
  {
  }

  lemma WileyPrefix(m: string)
    requires DoiPatterns.Shaped(DoiPatterns.Wiley, m)
    ensures |m| > 8 && m[3..8] == "1002/"
  {
  }

  /** A Wiley DOI on its own is found twice, by the generic pattern and by
      the Wiley one; duplicates are kept. */
  lemma WileyDoiTwice(o: OpaquePatterns, m: string)
    requires Anchored(o)
    requires DoiPatterns.Shaped(DoiPatterns.Generic, m) && DoiPatterns.Shaped(DoiPatterns.Wiley, m)
    requires SlashOnlyAt(m, 7) && 8 < |m| && !DoiPatterns.IsDigit(m[8])
    ensures TextToDois(m, Patterns(o)) == [Clean(m), Clean(m)]
  {
    WileyFindsWhole(m);
    WileyPrefix(m);
    OpaqueSilent(o, m, 7);
    OutputWhenOpaqueSilent(o, m);
    CleanedTwice(m);
  }

  /** `10.21105/joss.03440` has the generic shape, with its one `/` at 8. */
  lemma JossDoiShape()
    ensures DoiPatterns.Shaped(DoiPatterns.Generic, "10.21105/joss.03440")
    ensures SlashOnlyAt("10.21105/joss.03440", 8)
  {
    var m := "10.21105/joss.03440";
    JossDoiHead();
    JossDoiTail();
    assert m[..8] == "10.21105" && m[9..] == "joss.03440";
  }

  lemma JossDoiHead()
    ensures DoiPatterns.HeadAt(DoiPatterns.Generic, "10.21105/joss.03440", 0, 9)
  {
    var m := "10.21105/joss.03440";
    forall k | 3 <= k < 8
      ensures DoiPatterns.IsDigit(m[k])
    {
      assert m[k] == m[3..8][k - 3];
    }
  }

  lemma JossDoiTail()
    ensures var m := "10.21105/joss.03440";
      forall k :: 9 <= k < |m| ==> DoiPatterns.IsGenericTailChar(m[k])
  {
    var m := "10.21105/joss.03440";
    assert forall k :: 9 <= k < |m| ==> m[k] == m[9..][k - 9];
  }

  /** The pieces of the sentence around its DOI hold no `1` and no `/`. */
  lemma JossPieces()
    ensures var pre, post := "A DOI here ", " and that's all for now.";
      && '1' !in pre && '/' !in pre && '1' !in post && '/' !in post
      && !DoiPatterns.IsGenericTailChar(post[0])
  {
  }

  /** Around its `/`, the DOI matches none of the publisher prefixes, and no
      fix or strip applies to it. */
  lemma JossDoiPieces()
    ensures var m := "10.21105/joss.03440";
      && !DoiPatterns.IsDigit(m[9])
      && m[4..9] != "1021/" && m[4..9] != "1207/" && m[4..9] != "1002/"
      && m !in DoiFixes && Strings.Unstrippable(m, StripChars)
  {
    var m := "10.21105/joss.03440";
    assert m[4..9][1] == m[5] == '1';
  }

  /** The sentence of the repository's paper tests yields its one DOI. */
  lemma JossSentence(o: OpaquePatterns)
    requires Anchored(o)
    ensures TextToDois("A DOI here " + "10.21105/joss.03440" + " and that's all for now.", Patterns(o))
      == ["10.21105/joss.03440"]
  {
    var pre, m, post := "A DOI here ", "10.21105/joss.03440", " and that's all for now.";
    JossFits();
    SoleCleanDoi(o, pre, m, post, 8);
  }

  /** `m`, with its one `/` at `q`, is a clean generic DOI that no other
      pattern claims, and it sits between `pre` and `post` with nothing
      there that a pattern could use. */
  ghost predicate SoleCleanFits(pre: string, m: string, post: string, q: int) {
    && DoiPatterns.Shaped(DoiPatterns.Generic, m) && SlashOnlyAt(m, q)
    && 7 <= q && q + 1 < |m| && !DoiPatterns.IsDigit(m[q + 1])
    && m[q - 4..q + 1] != "1021/" && m[q - 4..q + 1] != "1207/" && m[q - 4..q + 1] != "1002/"
    && '1' !in pre && '/' !in pre && '1' !in post && '/' !in post
    && (post == [] || !DoiPatterns.IsGenericTailChar(post[0]))
    && m !in DoiFixes && Strings.Unstrippable(m, StripChars)
  }

  /** The sentence of the paper tests has that form around its DOI. */
  lemma JossFits()
    ensures SoleCleanFits("A DOI here ", "10.21105/joss.03440", " and that's all for now.", 8)
  {
    JossDoiShape();
    JossPieces();
    JossDoiPieces();
  }

  /** A clean generic DOI alone in its text yields itself. */
  lemma SoleCleanDoi(o: OpaquePatterns, pre: string, m: string, post: string, q: int)
    requires Anchored(o)
    requires SoleCleanFits(pre, m, post, q)
    ensures TextToDois(pre + m + post, Patterns(o)) == [m]
  {
    SoleGenericDoi(o, pre, m, post, q);
    CleanKeeps(m);
  }

  /** A generic DOI on its own, with its one `/` at `q`, yields itself once,
      cleaned. */
  lemma SoleGenericDoiAlone(o: OpaquePatterns, m: string, q: int)
    requires Anchored(o)
    requires DoiPatterns.Shaped(DoiPatterns.Generic, m) && SlashOnlyAt(m, q)
    requires 7 <= q && q + 1 < |m| && !DoiPatterns.IsDigit(m[q + 1])
    requires m[q - 4..q + 1] != "1021/" && m[q - 4..q + 1] != "1207/" && m[q - 4..q + 1] != "1002/"
    ensures TextToDois(m, Patterns(o)) == [Clean(m)]
  {
    assert "" + m + "" == m;
    SoleGenericDoi(o, "", m, "", q);
  }

  /** `10.1126/science.aax5705` has the generic shape, with its one `/` at 7,
      and is clean. */
  lemma ScienceDoiShape()
    ensures var m := "10.1126/science.aax5705";
      DoiPatterns.Shaped(DoiPatterns.Generic, m) && SlashOnlyAt(m, 7)
  {
    var m := "10.1126/science.aax5705";
    ScienceDoiHead();
    ScienceDoiTail();
    assert m[..7] == "10.1126" && m[8..] == "science.aax5705";
  }

  lemma ScienceDoiHead()
    ensures DoiPatterns.HeadAt(DoiPatterns.Generic, "10.1126/science.aax5705", 0, 8)
  {
    var m := "10.1126/science.aax5705";
    forall k | 3 <= k < 7
      ensures DoiPatterns.IsDigit(m[k])
    {
      assert m[k] == m[3..7][k - 3];
    }
  }

  lemma ScienceDoiTail()
    ensures var m := "10.1126/science.aax5705";
      forall k :: 8 <= k < |m| ==> DoiPatterns.IsGenericTailChar(m[k])
  {
    var m := "10.1126/science.aax5705";
    assert forall k :: 8 <= k < |m| ==> m[k] == m[8..][k - 8];
  }

  /** Around its `/`, `10.1126/science.aax5705` matches none of the
      publisher prefixes, and no fix or strip applies to it. */
  lemma ScienceDoiPieces()
    ensures var m := "10.1126/science.aax5705";
      && !DoiPatterns.IsDigit(m[8])
      && m[3..8] != "1021/" && m[3..8] != "1207/" && m[3..8] != "1002/"
      && m !in DoiFixes && Strings.Unstrippable(m, StripChars)
  {
    var m := "10.1126/science.aax5705";
    assert m[3..8][1] == m[4] == '1';
  }

  /** The DOI the repository's tests accept yields itself. */
  lemma ScienceDoi(o: OpaquePatterns)
    requires Anchored(o)
    ensures TextToDois("10.1126/science.aax5705", Patterns(o)) == ["10.1126/science.aax5705"]
  {
    ScienceDoiShape();
    ScienceDoiPieces();
    SoleGenericDoiAlone(o, "10.1126/science.aax5705", 7);
    CleanKeeps("10.1126/science.aax5705");
  }

  /** Two strings from the repository's DOI tests, one rejected there as
      obviously bad and one accepted, given to `validate_collection`: only
      the number draws a warning. */
  lemma ValidateTestCollection(o: OpaquePatterns)
    requires Anchored(o)
    ensures Unmatched(["12356.23", "10.1126/science.aax5705"], Patterns(o)) == ["12356.23"]
  {
    var n, d := "12356.23", "10.1126/science.aax5705";
    NumberYieldsNothing(o);
    ScienceDoi(o);
    assert TextToDois(d, Patterns(o))[0] != "";
    UnmatchedFirstOfTwo(n, d, Patterns(o));
  }

  /** Of two entries, only the first draws a warning when only the second
      yields a DOI. */
  lemma UnmatchedFirstOfTwo(a: string, b: string, pats: seq<Matcher>)
    requires !AnyTruthy(TextToDois(a, pats)) && AnyTruthy(TextToDois(b, pats))
    ensures Unmatched([a, b], pats) == [a]
  {
    assert [a, b][..1] == [a];
    assert [a][..0] == [];
  }
}
