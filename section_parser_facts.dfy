/** What `parseFullAnalysis` guarantees, proved about the regex model in
    module GeminiService. The regex facts are stated for any label that,
    like the three real ones, starts with a letter and holds no `#`; the
    section lemmas at the end instantiate them. */
module SectionParserFacts {
  import opened Wrappers
  import opened KotlinText
  import opened GeminiService

  predicate NoHash(x: string) {
    forall k :: 0 <= k < |x| ==> x[k] != '#'
  }

  predicate AllPatternSpace(x: string) {
    forall k :: 0 <= k < |x| ==> IsPatternSpace(x[k])
  }

  /** What the three labels have in common and the proofs rely on. */
  predicate LabelLike(name: string) {
    |name| > 0 && NoHash(name) && !IsPatternSpace(name[0])
  }

  /** A heading: `##`, any pattern whitespace, the label. */
  function Heading(gap: string, name: string): string {
    "##" + gap + name
  }

  // ---------------------------------------------------------------------
  // Positions in a text

  lemma StartsAtSplit(s: string, i: nat, x: string, y: string)
    requires StartsAt(s, i, x + y)
    ensures StartsAt(s, i, x) && StartsAt(s, i + |x|, y)
  {
    assert s[i..i + |x|] == (x + y)[..|x|];
    assert s[i + |x|..i + |x| + |y|] == (x + y)[|x|..];
  }

  /** Characters of a piece found in `s` are characters of `s`. */
  lemma StartsAtIndex(s: string, i: nat, x: string, k: nat)
    requires StartsAt(s, i, x) && k < |x|
    ensures s[i + k] == x[k]
  {
    assert s[i..i + |x|][k] == x[k];
  }

  lemma StartsAtWhole(x: string, y: string)
    ensures StartsAt(x + y, 0, x) && StartsAt(x + y, |x|, y)
  {
    assert (x + y)[..|x|] == x;
    assert (x + y)[|x|..|x| + |y|] == y;
  }

  lemma StartsAtTrans(s: string, i: nat, x: string, j: nat, y: string)
    requires StartsAt(s, i, x) && StartsAt(x, j, y)
    ensures StartsAt(s, i + j, y)
  {
    assert s[i..i + |x|] == x;
    forall k | 0 <= k < |y| ensures s[i + j + k] == y[k] {
      assert s[i + j + k] == s[i..i + |x|][j + k];
      assert x[j..j + |y|][k] == x[j + k];
    }
    assert s[i + j..i + j + |y|] == y;
  }

  /** Two pieces found one after the other form their concatenation. */
  lemma StartsAtJoin(s: string, i: nat, x: string, y: string)
    requires StartsAt(s, i, x) && StartsAt(s, i + |x|, y)
    ensures StartsAt(s, i, x + y)
  {
    assert s[i..i + |x| + |y|] == s[i..i + |x|] + s[i + |x|..i + |x| + |y|];
  }

  /** No `##` starts at a character other than `#`, nor just before one. */
  lemma NoPairAt(s: string, p: nat)
    requires p < |s| && (s[p] != '#' || (p + 1 < |s| && s[p + 1] != '#'))
    ensures !StartsAt(s, p, "##")
  {
    assert p + 2 <= |s| ==> s[p..p + 2][0] == s[p] && s[p..p + 2][1] == s[p + 1];
  }

  // ---------------------------------------------------------------------
  // The regex at one start index

  /** `SkipSpace` stops exactly at the first non-space character. */
  lemma SkipSpaceExact(s: string, i: nat, j: nat)
    requires i <= j <= |s|
    requires forall k :: i <= k < j ==> IsPatternSpace(s[k])
    requires j == |s| || !IsPatternSpace(s[j])
    ensures SkipSpace(s, i) == j
  {
  }

  /** After `##` the rest of a heading holds no `#`. */
  lemma HeadingTail(gap: string, name: string, k: nat)
    requires AllPatternSpace(gap) && LabelLike(name) && 2 <= k < |Heading(gap, name)|
    ensures Heading(gap, name)[k] != '#'
  {
    if k < 2 + |gap| {
      assert Heading(gap, name)[k] == gap[k - 2];
    } else {
      assert Heading(gap, name)[k] == name[k - 2 - |gap|];
    }
  }

  /** A heading at `h`: the regex reaches the end of its label. */
  lemma HeadingParts(s: string, h: nat, gap: string, name: string)
    requires StartsAt(s, h, Heading(gap, name)) && AllPatternSpace(gap) && LabelLike(name)
    ensures StartsAt(s, h, "##")
    ensures SkipSpace(s, h + 2) == h + 2 + |gap|
    ensures StartsAt(s, h + 2 + |gap|, name)
  {
    StartsAtSplit(s, h, "##" + gap, name);
    StartsAtSplit(s, h, "##", gap);
    StartsAtIndex(s, h + 2 + |gap|, name, 0);
    forall k | h + 2 <= k < h + 2 + |gap| ensures IsPatternSpace(s[k]) {
      StartsAtIndex(s, h + 2, gap, k - (h + 2));
    }
    SkipSpaceExact(s, h + 2, h + 2 + |gap|);
  }

  /** A match needs `##` at its start index. */
  lemma MatchNeedsPair(s: string, p: nat, name: string)
    requires p <= |s| && !StartsAt(s, p, "##")
    ensures MatchAt(s, p, name) == None
  {
  }

  /** A heading whose label starts with another letter does not match. */
  lemma OtherHeadingNoMatch(s: string, h: nat, gap: string, other: string, name: string)
    requires StartsAt(s, h, Heading(gap, other)) && AllPatternSpace(gap)
    requires LabelLike(other) && LabelLike(name) && other[0] != name[0]
    ensures MatchAt(s, h, name) == None
  {
    HeadingParts(s, h, gap, other);
    StartsAtIndex(s, h + 2 + |gap|, other, 0);
    var p := h + 2 + |gap|;
    assert p + |name| <= |s| ==> s[p..p + |name|][0] == s[p];
  }

  // ---------------------------------------------------------------------
  // Leftmost match

  predicate NoMatchBefore(s: string, name: string, h: nat)
    requires h <= |s| + 1
  {
    forall p :: 0 <= p < h ==> MatchAt(s, p, name).None?
  }

  lemma {:induction false} FindFromSkips(s: string, name: string, from: nat, i: nat)
    requires from <= i <= |s|
    requires forall p :: from <= p < i ==> MatchAt(s, p, name).None?
    ensures FindFrom(s, name, from) == FindFrom(s, name, i)
    decreases i - from
  {
    if from < i {
      FindFromSkips(s, name, from + 1, i);
    }
  }

  /** `find` returns the match at the leftmost index where the regex matches. */
  lemma FindIsLeftmost(s: string, name: string, i: nat)
    requires i <= |s| && MatchAt(s, i, name).Some? && NoMatchBefore(s, name, i)
    ensures FindFrom(s, name, 0) == MatchAt(s, i, name)
  {
    FindFromSkips(s, name, 0, i);
  }

  /** Where the regex matches at no index, `find` gives null. */
  lemma NoMatchFindsNothing(s: string, name: string)
    requires NoMatchBefore(s, name, |s| + 1)
    ensures FindFrom(s, name, 0) == None
  {
    FindFromSkips(s, name, 0, |s|);
  }

  /** Hash-free stretch: no match starts inside it. */
  lemma ExtendOverHashFree(s: string, name: string, a: nat, x: string)
    requires StartsAt(s, a, x) && NoHash(x) && NoMatchBefore(s, name, a)
    ensures NoMatchBefore(s, name, a + |x|)
  {
    forall p | a <= p < a + |x| ensures MatchAt(s, p, name).None? {
      StartsAtIndex(s, a, x, p - a);
      NoPairAt(s, p);
      MatchNeedsPair(s, p, name);
    }
  }

  /** `x` holds no `##` (a lone `#`, as in a `# Title` line, is allowed). */
  predicate NoPair(x: string) {
    forall p :: 0 <= p <= |x| ==> !StartsAt(x, p, "##")
  }

  /** A `#` is not where a label starts. */
  lemma HashNotLabel(s: string, p: nat, name: string)
    requires p < |s| && s[p] == '#' && LabelLike(name)
    ensures !StartsAt(s, p, name)
  {
    assert name[0] != '#';
    assert p + |name| <= |s| ==> s[p..p + |name|][0] == s[p];
  }

  /** A stretch without `##` that is followed by `##`: no match starts
      inside it, not even at a final `#` that pairs with the next one. */
  lemma ExtendOverPairFree(s: string, name: string, a: nat, x: string)
    requires StartsAt(s, a, x) && NoPair(x) && StartsAt(s, a + |x|, "##") && LabelLike(name)
    requires NoMatchBefore(s, name, a)
    ensures NoMatchBefore(s, name, a + |x|)
  {
    forall p | a <= p < a + |x| ensures MatchAt(s, p, name).None? {
      StartsAtIndex(s, a, x, p - a);
      if p + 1 < a + |x| {
        StartsAtIndex(s, a, x, p + 1 - a);
        assert !StartsAt(x, p - a, "##");
        assert x[p - a..p - a + 2] == [x[p - a], x[p + 1 - a]];
        NoPairAt(s, p);
        MatchNeedsPair(s, p, name);
      } else if s[p] != '#' {
        NoPairAt(s, p);
        MatchNeedsPair(s, p, name);
      } else {
        StartsAtIndex(s, a + |x|, "##", 1);
        HashNotLabel(s, p + 2, name);
      }
    }
  }

  /** Past the `##` of a heading, no match starts inside it. */
  lemma ExtendOverHeadingTail(s: string, name: string, h: nat, gap: string, other: string)
    requires StartsAt(s, h, Heading(gap, other)) && AllPatternSpace(gap) && LabelLike(other)
    requires NoMatchBefore(s, name, h + 1)
    ensures NoMatchBefore(s, name, h + |Heading(gap, other)|)
  {
    var H := Heading(gap, other);
    forall p | h + 1 <= p < h + |H| ensures MatchAt(s, p, name).None? {
      if p == h + 1 {
        HeadingTail(gap, other, 2);
        StartsAtIndex(s, h, H, 2);
      } else {
        HeadingTail(gap, other, p - h);
        StartsAtIndex(s, h, H, p - h);
      }
      NoPairAt(s, p);
      MatchNeedsPair(s, p, name);
    }
  }

  /** Heading for another name: no match starts inside it. */
  lemma ExtendOverOtherHeading(s: string, name: string, h: nat, gap: string, other: string)
    requires StartsAt(s, h, Heading(gap, other)) && AllPatternSpace(gap)
    requires LabelLike(other) && LabelLike(name) && other[0] != name[0]
    requires NoMatchBefore(s, name, h)
    ensures NoMatchBefore(s, name, h + |Heading(gap, other)|)
  {
    OtherHeadingNoMatch(s, h, gap, other, name);
    ExtendOverHeadingTail(s, name, h, gap, other);
  }

  /** No match starts at the very end of the text. */
  lemma ExtendOverEnd(s: string, name: string)
    requires NoMatchBefore(s, name, |s|)
    ensures NoMatchBefore(s, name, |s| + 1)
  {
    MatchNeedsPair(s, |s|, name);
  }

  // ---------------------------------------------------------------------
  // Where the lazy group stops

  /** The lazy group stops at the first `##` when none comes earlier. */
  lemma LazyEndAtPair(s: string, e0: nat, e: nat)
    requires 0 < e0 <= e && StartsAt(s, e, "##")
    requires forall p :: e0 <= p < e ==> !StartsAt(s, p, "##")
    ensures LazyEnd(s, e0) == e
  {
    var r := LazyEnd(s, e0);
    assert LookaheadAt(s, e);
    assert r <= e;
    assert r < e ==> !DollarAt(s, r);
  }

  /** With no `##` left and no final NEL, what the lazy group leaves behind
      at the end of the text is whitespace that `trim` removes. */
  lemma LazyEndAtTail(s: string, e0: nat)
    requires 0 < e0 <= |s|
    requires forall p :: e0 <= p < |s| ==> !StartsAt(s, p, "##")
    requires s[|s| - 1] != '\U{85}'
    ensures AllWhitespace(s[LazyEnd(s, e0)..])
  {
    var r := LazyEnd(s, e0);
    var t := s[r..];
    if r < |s| {
      assert DollarAt(s, r);
      forall k | 0 <= k < |t| ensures IsWhitespace(t[k]) {
        assert t[k] == s[r + k];
      }
    }
  }

  // ---------------------------------------------------------------------
  // The regex applied to well-formed sections

  /** A section body as the prompt asks for it: no `#`, some text that is
      not whitespace, and no final NEL (U+0085), which Java's `$` would cut
      off but Kotlin's `trim` would not. */
  predicate WellFormedBody(b: string) {
    NoHash(b) && SkipSpace(b, 0) < |b| && b[|b| - 1] != '\U{85}'
  }

  /** A section that ends at `e`: the text ends there, or `##` and at least
      one more character follow. */
  predicate SectionEnds(s: string, e: nat) {
    e == |s| || (StartsAt(s, e, "##") && e + 3 <= |s|)
  }

  /** At a heading, the regex goes on with the group after the label. */
  lemma HeadingMatch(s: string, h: nat, gap: string, name: string)
    requires StartsAt(s, h, Heading(gap, name)) && AllPatternSpace(gap) && LabelLike(name)
    ensures h + |Heading(gap, name)| <= |s|
    ensures MatchAt(s, h, name) == GroupAfterLabel(s, h + |Heading(gap, name)|)
  {
    HeadingParts(s, h, gap, name);
    assert |Heading(gap, name)| == 2 + |gap| + |name|;
  }

  /** With no earlier match, `find` returns the group after the label of a
      heading. */
  lemma FoundAtHeading(s: string, h: nat, gap: string, name: string, x: string)
    requires StartsAt(s, h, Heading(gap, name)) && AllPatternSpace(gap) && LabelLike(name)
    requires NoMatchBefore(s, name, h)
    requires GroupAfterLabel(s, h + |Heading(gap, name)|) == Some(x)
    ensures FindFrom(s, name, 0) == Some(x)
  {
    HeadingMatch(s, h, gap, name);
    FindIsLeftmost(s, name, h);
  }

  /** Skipping the pattern spaces that open a body found at `bs`. */
  lemma SkipBodySpace(s: string, bs: nat, b: string)
    requires StartsAt(s, bs, b) && SkipSpace(b, 0) < |b|
    ensures SkipSpace(s, bs) == bs + SkipSpace(b, 0)
  {
    var k' := SkipSpace(b, 0);
    forall q | bs <= q < bs + k' ensures IsPatternSpace(s[q]) {
      StartsAtIndex(s, bs, b, q - bs);
    }
    StartsAtIndex(s, bs, b, k');
    SkipSpaceExact(s, bs, bs + k');
  }

  /** Inside a well-formed body no `##` starts, nor at its last character. */
  lemma BodyHasNoPair(s: string, bs: nat, b: string, k: nat)
    requires StartsAt(s, bs, b) && NoHash(b) && bs <= k
    ensures forall p :: k + 1 <= p < bs + |b| ==> !StartsAt(s, p, "##")
  {
    forall p | k + 1 <= p < bs + |b| ensures !StartsAt(s, p, "##") {
      StartsAtIndex(s, bs, b, p - bs);
      NoPairAt(s, p);
    }
  }

  /** A piece that ends the text: its suffixes are suffixes of the text. */
  lemma TailOfPiece(s: string, bs: nat, b: string, x: nat)
    requires StartsAt(s, bs, b) && bs + |b| == |s| && x <= |b|
    ensures b[x..] == s[bs + x..]
  {
    forall q | 0 <= q < |b| - x ensures b[x..][q] == s[bs + x..][q] {
      StartsAtIndex(s, bs, b, x + q);
    }
  }

  /** Where the lazy group that starts inside a well-formed body found at
      `bs` ends: at the body's end, or short of it by whitespace only. */
  lemma BodyEnd(s: string, bs: nat, b: string, k: nat)
    requires StartsAt(s, bs, b) && WellFormedBody(b) && bs <= k < bs + |b|
    requires SectionEnds(s, bs + |b|)
    ensures k + 1 <= LazyEnd(s, k + 1) <= bs + |b|
    ensures AllWhitespace(b[LazyEnd(s, k + 1) - bs..])
  {
    var e := bs + |b|;
    BodyHasNoPair(s, bs, b, k);
    if e < |s| {
      LazyEndAtPair(s, k + 1, e);
    } else {
      StartsAtIndex(s, bs, b, |b| - 1);
      LazyEndAtTail(s, k + 1);
      TailOfPiece(s, bs, b, LazyEnd(s, k + 1) - bs);
    }
  }

  /** The group the regex captures from a well-formed body found at `bs` is
      the body less some whitespace at either end. */
  lemma BodyGroup(s: string, bs: nat, b: string) returns (a: nat, z: nat)
    requires StartsAt(s, bs, b) && WellFormedBody(b)
    requires SectionEnds(s, bs + |b|)
    ensures a <= z <= |b| && GroupAfterLabel(s, bs) == Some(b[a..z])
    ensures AllPatternSpace(b[..a]) && AllWhitespace(b[z..])
  {
    a := SkipSpace(b, 0);
    var k := bs + a;
    assert a < |b|;
    BodyEnd(s, bs, b, k);
    var r := LazyEnd(s, k + 1);
    z := r - bs;
    assert AllWhitespace(b[z..]) && k < r <= bs + |b|;
    BodyGroupAt(s, bs, b, a, r);
    LeadingPatternSpace(b);
  }

  lemma BodyGroupAt(s: string, bs: nat, b: string, a: nat, r: nat)
    requires StartsAt(s, bs, b) && a == SkipSpace(b, 0) < |b|
    requires bs + a < r <= bs + |b| && r == LazyEnd(s, bs + a + 1)
    ensures GroupAfterLabel(s, bs) == Some(b[a..r - bs])
  {
    SkipBodySpace(s, bs, b);
    GroupAt(s, bs, bs + a);
    SliceOfPiece(s, bs, b, a, r - bs);
  }

  /** The group once `\s*` has stopped before the end of the text. */
  lemma GroupAt(s: string, e: nat, k: nat)
    requires e <= k < |s| && SkipSpace(s, e) == k
    ensures GroupAfterLabel(s, e) == Some(s[k..LazyEnd(s, k + 1)])
  {
  }

  lemma LeadingPatternSpace(b: string)
    ensures AllPatternSpace(b[..SkipSpace(b, 0)])
  {
    var a := SkipSpace(b, 0);
    forall q | 0 <= q < a ensures IsPatternSpace(b[..a][q]) {
      assert b[..a][q] == b[q];
    }
  }

  lemma SliceOfPiece(s: string, bs: nat, b: string, a: nat, z: nat)
    requires StartsAt(s, bs, b) && a <= z <= |b|
    ensures s[bs + a..bs + z] == b[a..z]
  {
    forall q | 0 <= q < z - a ensures s[bs + a..bs + z][q] == b[a..z][q] {
      StartsAtIndex(s, bs, b, a + q);
    }
  }

  lemma PatternSpaceRunIsWhitespace(x: string)
    requires AllPatternSpace(x)
    ensures AllWhitespace(x)
  {
    forall q | 0 <= q < |x| ensures IsWhitespace(x[q]) {
      PatternSpaceIsWhitespace(x[q]);
    }
  }

  /** A heading followed by a well-formed body, which is followed by the end
      of the text or by another `##` and something more, is where `find`
      matches, provided no earlier index matches; the group is the body less
      some whitespace at either end. */
  lemma GroupFound(s: string, h: nat, gap: string, name: string, b: string) returns (a: nat, z: nat)
    requires StartsAt(s, h, Heading(gap, name)) && StartsAt(s, h + |Heading(gap, name)|, b)
    requires AllPatternSpace(gap) && LabelLike(name) && WellFormedBody(b)
    requires SectionEnds(s, h + |Heading(gap, name)| + |b|)
    requires NoMatchBefore(s, name, h)
    ensures a <= z <= |b| && FindFrom(s, name, 0) == Some(b[a..z])
    ensures AllPatternSpace(b[..a]) && AllWhitespace(b[z..])
  {
    a, z := BodyGroup(s, h + |Heading(gap, name)|, b);
    FoundAtHeading(s, h, gap, name, b[a..z]);
  }

  /** ... and the group trims to the trimmed body. */
  lemma SectionBody(s: string, h: nat, gap: string, name: string, b: string)
    requires StartsAt(s, h, Heading(gap, name)) && StartsAt(s, h + |Heading(gap, name)|, b)
    requires AllPatternSpace(gap) && LabelLike(name) && WellFormedBody(b)
    requires SectionEnds(s, h + |Heading(gap, name)| + |b|)
    requires NoMatchBefore(s, name, h)
    ensures FindFrom(s, name, 0).Some? && Trim(FindFrom(s, name, 0).value) == Trim(b)
  {
    var a, z := GroupFound(s, h, gap, name, b);
    PatternSpaceRunIsWhitespace(b[..a]);
    TrimOfInner(b, a, z);
  }

  // ---------------------------------------------------------------------
  // A reply with three headings

  /** Where each piece of a three-heading text sits. */
  lemma LayoutOfThree(pre: string, H1: string, b1: string, H2: string, b2: string, H3: string, b3: string)
    ensures var s := pre + H1 + b1 + H2 + b2 + H3 + b3;
            var h1 := |pre|;
            var h2 := h1 + |H1| + |b1|;
            var h3 := h2 + |H2| + |b2|;
            StartsAt(s, 0, pre) && StartsAt(s, h1, H1) && StartsAt(s, h1 + |H1|, b1) &&
            StartsAt(s, h2, H2) && StartsAt(s, h2 + |H2|, b2) &&
            StartsAt(s, h3, H3) && StartsAt(s, h3 + |H3|, b3) && h3 + |H3| + |b3| == |s|
  {
    var s1 := pre + H1;
    var s2 := s1 + b1;
    var s3 := s2 + H2;
    var s4 := s3 + b2;
    var s5 := s4 + H3;
    var s := s5 + b3;
    StartsAtWhole(s5, b3);
    StartsAtWhole(s4, H3);
    StartsAtWhole(s3, b2);
    StartsAtWhole(s2, H2);
    StartsAtWhole(s1, b1);
    StartsAtWhole(pre, H1);
    StartsAtTrans(s, 0, s5, |s4|, H3);
    StartsAtTrans(s, 0, s5, 0, s4);
    StartsAtTrans(s, 0, s4, |s3|, b2);
    StartsAtTrans(s, 0, s4, 0, s3);
    StartsAtTrans(s, 0, s3, |s2|, H2);
    StartsAtTrans(s, 0, s3, 0, s2);
    StartsAtTrans(s, 0, s2, |s1|, b1);
    StartsAtTrans(s, 0, s2, 0, s1);
    StartsAtTrans(s, 0, s1, |pre|, H1);
    StartsAtTrans(s, 0, s1, 0, pre);
  }

  /** The pieces of a three-heading text, by position: a preamble without
      `##`, three headings with distinct labels, and bodies without `#`
      (each may be empty or blank; the lemmas about one section say what
      they need of its body). */
  predicate ThreeLaidOut(s: string, pre: string, g1: string, L1: string, b1: string, g2: string, L2: string,
                         b2: string, g3: string, L3: string, b3: string)
  {
    var h1 := |pre|;
    var h2 := h1 + |Heading(g1, L1)| + |b1|;
    var h3 := h2 + |Heading(g2, L2)| + |b2|;
    StartsAt(s, 0, pre) && StartsAt(s, h1, Heading(g1, L1)) && StartsAt(s, h1 + |Heading(g1, L1)|, b1) &&
    StartsAt(s, h2, Heading(g2, L2)) && StartsAt(s, h2 + |Heading(g2, L2)|, b2) &&
    StartsAt(s, h3, Heading(g3, L3)) && StartsAt(s, h3 + |Heading(g3, L3)|, b3) &&
    h3 + |Heading(g3, L3)| + |b3| == |s| &&
    NoPair(pre) && AllPatternSpace(g1) && AllPatternSpace(g2) && AllPatternSpace(g3) &&
    LabelLike(L1) && LabelLike(L2) && LabelLike(L3) &&
    L1[0] != L2[0] && L1[0] != L3[0] && L2[0] != L3[0] &&
    NoHash(b1) && NoHash(b2) && NoHash(b3)
  }

  /** A body followed by another heading is followed by `##` and more. */
  lemma NextHeadingFollows(s: string, h: nat, gap: string, name: string)
    requires StartsAt(s, h, Heading(gap, name)) && LabelLike(name)
    ensures StartsAt(s, h, "##") && h + 3 <= |s|
  {
    StartsAtSplit(s, h, "##", gap + name);
  }

  /** The first label's regex matches nowhere in the preamble. */
  lemma NoMatchBeforeFirst(s: string, pre: string, g1: string, L1: string, b1: string, g2: string, L2: string,
                           b2: string, g3: string, L3: string, b3: string)
    requires ThreeLaidOut(s, pre, g1, L1, b1, g2, L2, b2, g3, L3, b3)
    ensures NoMatchBefore(s, L1, |pre|)
  {
    NextHeadingFollows(s, |pre|, g1, L1);
    ExtendOverPairFree(s, L1, 0, pre);
  }

  /** The second label's regex matches nowhere before the second heading. */
  lemma NoMatchBeforeSecond(s: string, pre: string, g1: string, L1: string, b1: string, g2: string, L2: string,
                            b2: string, g3: string, L3: string, b3: string)
    requires ThreeLaidOut(s, pre, g1, L1, b1, g2, L2, b2, g3, L3, b3)
    ensures NoMatchBefore(s, L2, |pre| + |Heading(g1, L1)| + |b1|)
  {
    var h1 := |pre|;
    NextHeadingFollows(s, h1, g1, L1);
    ExtendOverPairFree(s, L2, 0, pre);
    ExtendOverOtherHeading(s, L2, h1, g1, L1);
    ExtendOverHashFree(s, L2, h1 + |Heading(g1, L1)|, b1);
  }

  /** The third label's regex matches nowhere before the third heading. */
  lemma NoMatchBeforeThird(s: string, pre: string, g1: string, L1: string, b1: string, g2: string, L2: string,
                           b2: string, g3: string, L3: string, b3: string)
    requires ThreeLaidOut(s, pre, g1, L1, b1, g2, L2, b2, g3, L3, b3)
    ensures NoMatchBefore(s, L3, |pre| + |Heading(g1, L1)| + |b1| + |Heading(g2, L2)| + |b2|)
  {
    var h1 := |pre|;
    var h2 := h1 + |Heading(g1, L1)| + |b1|;
    NextHeadingFollows(s, h1, g1, L1);
    ExtendOverPairFree(s, L3, 0, pre);
    ExtendOverOtherHeading(s, L3, h1, g1, L1);
    ExtendOverHashFree(s, L3, h1 + |Heading(g1, L1)|, b1);
    ExtendOverOtherHeading(s, L3, h2, g2, L2);
    ExtendOverHashFree(s, L3, h2 + |Heading(g2, L2)|, b2);
  }

  lemma FirstOfThree(s: string, pre: string, g1: string, L1: string, b1: string, g2: string, L2: string,
                     b2: string, g3: string, L3: string, b3: string)
    requires ThreeLaidOut(s, pre, g1, L1, b1, g2, L2, b2, g3, L3, b3) && WellFormedBody(b1)
    ensures FindFrom(s, L1, 0).Some? && Trim(FindFrom(s, L1, 0).value) == Trim(b1)
  {
    var h1 := |pre|;
    NextHeadingFollows(s, h1 + |Heading(g1, L1)| + |b1|, g2, L2);
    NoMatchBeforeFirst(s, pre, g1, L1, b1, g2, L2, b2, g3, L3, b3);
    SectionBody(s, h1, g1, L1, b1);
  }

  lemma SecondOfThree(s: string, pre: string, g1: string, L1: string, b1: string, g2: string, L2: string,
                      b2: string, g3: string, L3: string, b3: string)
    requires ThreeLaidOut(s, pre, g1, L1, b1, g2, L2, b2, g3, L3, b3) && WellFormedBody(b2)
    ensures FindFrom(s, L2, 0).Some? && Trim(FindFrom(s, L2, 0).value) == Trim(b2)
  {
    var h2 := |pre| + |Heading(g1, L1)| + |b1|;
    NextHeadingFollows(s, h2 + |Heading(g2, L2)| + |b2|, g3, L3);
    NoMatchBeforeSecond(s, pre, g1, L1, b1, g2, L2, b2, g3, L3, b3);
    SectionBody(s, h2, g2, L2, b2);
  }

  lemma ThirdOfThree(s: string, pre: string, g1: string, L1: string, b1: string, g2: string, L2: string,
                     b2: string, g3: string, L3: string, b3: string)
    requires ThreeLaidOut(s, pre, g1, L1, b1, g2, L2, b2, g3, L3, b3) && WellFormedBody(b3)
    ensures FindFrom(s, L3, 0).Some? && Trim(FindFrom(s, L3, 0).value) == Trim(b3)
  {
    var h3 := |pre| + |Heading(g1, L1)| + |b1| + |Heading(g2, L2)| + |b2|;
    NoMatchBeforeThird(s, pre, g1, L1, b1, g2, L2, b2, g3, L3, b3);
    SectionBody(s, h3, g3, L3, b3);
  }

  // ---------------------------------------------------------------------
  // The parser's guarantees, section by section

  /** No label holds `#` or starts with whitespace, and their first letters differ. */
  lemma LabelsAreLabelLike()
    ensures LabelLike(Label(Interpretation)) && LabelLike(Label(Conditions)) && LabelLike(Label(Treatment))
    ensures Label(Interpretation)[0] != Label(Conditions)[0]
    ensures Label(Interpretation)[0] != Label(Treatment)[0]
    ensures Label(Conditions)[0] != Label(Treatment)[0]
  {
  }

  /** A reply laid out as the prompt asks: an optional preamble without `##`
      (a `# Title` line is fine), then the three headings in order, each with
      any whitespace between `##` and its name, each followed by its body. */
  function Reply(pre: string, g1: string, b1: string, g2: string, b2: string, g3: string, b3: string): string {
    pre + Heading(g1, Label(Interpretation)) + b1 + Heading(g2, Label(Conditions)) + b2 +
    Heading(g3, Label(Treatment)) + b3
  }

  /** Pattern spaces are not `#`. */
  lemma PatternSpaceNoHash(w: string)
    requires AllPatternSpace(w)
    ensures NoHash(w)
  {
    forall k | 0 <= k < |w| ensures w[k] != '#' {
      assert IsPatternSpace(w[k]);
    }
  }

  /** The layout facts of `Reply`, for bodies without `#`. */
  lemma ReplyLaidOut(pre: string, g1: string, b1: string, g2: string, b2: string, g3: string, b3: string)
    requires NoPair(pre) && AllPatternSpace(g1) && AllPatternSpace(g2) && AllPatternSpace(g3)
    requires NoHash(b1) && NoHash(b2) && NoHash(b3)
    ensures ThreeLaidOut(Reply(pre, g1, b1, g2, b2, g3, b3), pre, g1, Label(Interpretation), b1,
                         g2, Label(Conditions), b2, g3, Label(Treatment), b3)
  {
    LabelsAreLabelLike();
    LayoutOfThree(pre, Heading(g1, Label(Interpretation)), b1, Heading(g2, Label(Conditions)), b2,
                  Heading(g3, Label(Treatment)), b3);
  }

  /** Each slot of a well-formed reply is the text between its label and the
      next `##` (or the end of the text), trimmed. */
  lemma WellFormedReplyParses(pre: string, g1: string, b1: string, g2: string, b2: string, g3: string, b3: string)
    requires NoPair(pre) && AllPatternSpace(g1) && AllPatternSpace(g2) && AllPatternSpace(g3)
    requires WellFormedBody(b1) && WellFormedBody(b2) && WellFormedBody(b3)
    ensures ParseFullAnalysis(Reply(pre, g1, b1, g2, b2, g3, b3)) == Sections(Trim(b1), Trim(b2), Trim(b3))
  {
    var L1, L2, L3 := Label(Interpretation), Label(Conditions), Label(Treatment);
    var s := Reply(pre, g1, b1, g2, b2, g3, b3);
    ReplyLaidOut(pre, g1, b1, g2, b2, g3, b3);
    FirstOfThree(s, pre, g1, L1, b1, g2, L2, b2, g3, L3, b3);
    SecondOfThree(s, pre, g1, L1, b1, g2, L2, b2, g3, L3, b3);
    ThirdOfThree(s, pre, g1, L1, b1, g2, L2, b2, g3, L3, b3);
  }

  // ---------------------------------------------------------------------
  // Replies that do not follow the layout

  /** A label that never follows `##` and regex whitespace leaves its
      section at the fallback text: a label written in lower case, in bold
      (`**INTERPRETATION**`) or only in prose. */
  lemma AbsentLabelFallsBack(text: string, sec: Section)
    requires forall p :: 0 <= p <= |text| && StartsAt(text, p, "##") ==>
                         !StartsAt(text, SkipSpace(text, p + 2), Label(sec))
    ensures Slot(text, sec) == Fallback(sec)
  {
    forall p | 0 <= p <= |text| ensures MatchAt(text, p, Label(sec)).None? {
    }
    NoMatchFindsNothing(text, Label(sec));
  }

  /** A reply without any `##` leaves all three sections at their fallbacks. */
  lemma NoMarkerFallsBack(text: string)
    requires forall p :: 0 <= p < |text| ==> !StartsAt(text, p, "##")
    ensures ParseFullAnalysis(text) ==
            Sections(Fallback(Interpretation), Fallback(Conditions), Fallback(Treatment))
  {
    forall sec: Section ensures FindFrom(text, Label(sec), 0) == None {
      forall p | 0 <= p <= |text| ensures MatchAt(text, p, Label(sec)).None? {
        MatchNeedsPair(text, p, Label(sec));
      }
      NoMatchFindsNothing(text, Label(sec));
    }
  }

  /** A heading that ends the text, with no earlier match: the regex
      matches nowhere. */
  lemma HeadingAtEndNoMatch(s: string, h: nat, gap: string, name: string)
    requires StartsAt(s, h, Heading(gap, name)) && h + |Heading(gap, name)| == |s|
    requires AllPatternSpace(gap) && LabelLike(name) && NoMatchBefore(s, name, h)
    ensures FindFrom(s, name, 0) == None
  {
    HeadingMatch(s, h, gap, name);
    ExtendOverHeadingTail(s, name, h, gap, name);
    ExtendOverEnd(s, name);
    NoMatchFindsNothing(s, name);
  }

  /** A heading that ends the reply captures nothing: `.+?` needs a
      character, so the section falls back, whatever comes before the
      heading as long as the regex does not match there. */
  lemma HeadingAtEndFallsBack(pre: string, gap: string, sec: Section)
    requires AllPatternSpace(gap) && NoMatchBefore(pre + Heading(gap, Label(sec)), Label(sec), |pre|)
    ensures Slot(pre + Heading(gap, Label(sec)), sec) == Fallback(sec)
  {
    LabelsAreLabelLike();
    StartsAtWhole(pre, Heading(gap, Label(sec)));
    HeadingAtEndNoMatch(pre + Heading(gap, Label(sec)), |pre|, gap, Label(sec));
  }

  /** A reply cut off right after its third heading: the first two slots
      are their trimmed bodies and the treatment slot falls back. */
  lemma TruncatedReplyFallsBack(pre: string, g1: string, b1: string, g2: string, b2: string, g3: string)
    requires NoPair(pre) && AllPatternSpace(g1) && AllPatternSpace(g2) && AllPatternSpace(g3)
    requires WellFormedBody(b1) && WellFormedBody(b2)
    ensures ParseFullAnalysis(Reply(pre, g1, b1, g2, b2, g3, "")) ==
            Sections(Trim(b1), Trim(b2), Fallback(Treatment))
  {
    var L1, L2, L3 := Label(Interpretation), Label(Conditions), Label(Treatment);
    var s := Reply(pre, g1, b1, g2, b2, g3, "");
    ReplyLaidOut(pre, g1, b1, g2, b2, g3, "");
    FirstOfThree(s, pre, g1, L1, b1, g2, L2, b2, g3, L3, "");
    SecondOfThree(s, pre, g1, L1, b1, g2, L2, b2, g3, L3, "");
    NoMatchBeforeThird(s, pre, g1, L1, b1, g2, L2, b2, g3, L3, "");
    HeadingAtEndNoMatch(s, |pre| + |Heading(g1, L1)| + |b1| + |Heading(g2, L2)| + |b2|, g3, L3);
  }

  /** Where the pieces of `pre + H + w` sit. */
  lemma LayoutOfBlank(pre: string, H: string, w: string)
    ensures var s := pre + H + w;
            StartsAt(s, 0, pre) && StartsAt(s, |pre|, H) && StartsAt(s, |pre| + |H|, w) &&
            |pre| + |H| + |w| == |s|
  {
    var s1 := pre + H;
    var s := s1 + w;
    StartsAtWhole(s1, w);
    StartsAtWhole(pre, H);
    StartsAtTrans(s, 0, s1, |pre|, H);
    StartsAtTrans(s, 0, s1, 0, pre);
  }

  /** Whitespace that runs to the end of the text: greedy `\s*` gives its
      last character back to `.+?`, so the group is that one whitespace
      character. */
  lemma GroupOfBlankTail(s: string, e: nat, w: string) returns (g: string)
    requires StartsAt(s, e, w) && e + |w| == |s| && AllPatternSpace(w) && w != []
    ensures GroupAfterLabel(s, e) == Some(g) && |g| == 1 && AllWhitespace(g)
  {
    forall q | e <= q < |s| ensures IsPatternSpace(s[q]) {
      StartsAtIndex(s, e, w, q - e);
    }
    SkipSpaceExact(s, e, |s|);
    g := s[|s| - 1..];
    PatternSpaceIsWhitespace(g[0]);
  }

  /** A heading followed only by whitespace yields an empty section, not
      the fallback text, whatever comes before the heading as long as the
      regex does not match there. */
  lemma BlankSectionIsEmpty(pre: string, gap: string, sec: Section, w: string)
    requires AllPatternSpace(gap) && AllPatternSpace(w) && w != []
    requires NoMatchBefore(pre + Heading(gap, Label(sec)) + w, Label(sec), |pre|)
    ensures Slot(pre + Heading(gap, Label(sec)) + w, sec) == ""
  {
    LabelsAreLabelLike();
    LayoutOfBlank(pre, Heading(gap, Label(sec)), w);
    var g := BlankFound(pre + Heading(gap, Label(sec)) + w, |pre|, gap, Label(sec), w);
    TrimOfPadded(g, 0, 0);
  }

  /** A heading followed only by whitespace that ends the text, with no
      earlier match: `find` matches at the heading and the group is
      whitespace. */
  lemma BlankFound(s: string, h: nat, gap: string, name: string, w: string) returns (g: string)
    requires StartsAt(s, h, Heading(gap, name)) && StartsAt(s, h + |Heading(gap, name)|, w)
    requires h + |Heading(gap, name)| + |w| == |s|
    requires AllPatternSpace(gap) && LabelLike(name) && AllPatternSpace(w) && w != []
    requires NoMatchBefore(s, name, h)
    ensures FindFrom(s, name, 0) == Some(g) && AllWhitespace(g)
  {
    g := GroupOfBlankTail(s, h + |Heading(gap, name)|, w);
    FoundAtHeading(s, h, gap, name, g);
  }

  /** Whitespace trims to the empty text. */
  lemma BlankTrimsToEmpty(g: string)
    requires AllWhitespace(g)
    ensures Trim(g) == ""
  {
    assert g[..0] == [] && g[0..] == g;
    TrimOfPadded(g, 0, 0);
  }

  /** In a three-heading text whose last body is blank, the third label's
      slot is empty. */
  lemma ThirdBlank(s: string, pre: string, g1: string, L1: string, b1: string, g2: string, L2: string,
                   b2: string, g3: string, L3: string, b3: string)
    requires ThreeLaidOut(s, pre, g1, L1, b1, g2, L2, b2, g3, L3, b3) && AllPatternSpace(b3) && b3 != []
    ensures FindFrom(s, L3, 0).Some? && Trim(FindFrom(s, L3, 0).value) == ""
  {
    NoMatchBeforeThird(s, pre, g1, L1, b1, g2, L2, b2, g3, L3, b3);
    var g := BlankFound(s, |pre| + |Heading(g1, L1)| + |b1| + |Heading(g2, L2)| + |b2|, g3, L3, b3);
    BlankTrimsToEmpty(g);
  }

  /** A full reply whose last section is blank: the treatment slot is
      empty and the other two are their trimmed bodies. */
  lemma BlankLastSection(pre: string, g1: string, b1: string, g2: string, b2: string, g3: string, w: string)
    requires NoPair(pre) && AllPatternSpace(g1) && AllPatternSpace(g2) && AllPatternSpace(g3)
    requires WellFormedBody(b1) && WellFormedBody(b2) && AllPatternSpace(w) && w != []
    ensures ParseFullAnalysis(Reply(pre, g1, b1, g2, b2, g3, w)) == Sections(Trim(b1), Trim(b2), "")
  {
    var L1, L2, L3 := Label(Interpretation), Label(Conditions), Label(Treatment);
    var s := Reply(pre, g1, b1, g2, b2, g3, w);
    PatternSpaceNoHash(w);
    ReplyLaidOut(pre, g1, b1, g2, b2, g3, w);
    FirstOfThree(s, pre, g1, L1, b1, g2, L2, b2, g3, L3, w);
    SecondOfThree(s, pre, g1, L1, b1, g2, L2, b2, g3, L3, w);
    ThirdBlank(s, pre, g1, L1, b1, g2, L2, b2, g3, L3, w);
  }

  /** Text that opens with `##` and holds no other `#`. */
  predicate RunOnTail(T: string) {
    2 <= |T| && T[0] == '#' && T[1] == '#' && (forall q :: 2 <= q < |T| ==> T[q] != '#')
  }

  /** How such a piece at `k` ends: it ends the text and not with NEL, or a
      further `##` follows it (and it is longer than its own `##`). */
  predicate RunOnStops(s: string, k: nat, T: string) {
    (k + |T| == |s| && T != [] && T[|T| - 1] != '\U{85}') || (3 <= |T| && StartsAt(s, k + |T|, "##"))
  }

  lemma RunOnTailOf(rest: string)
    requires NoHash(rest)
    ensures RunOnTail("##" + rest)
  {
    var T := "##" + rest;
    forall q | 2 <= q < |T| ensures T[q] != '#' {
      assert T[q] == rest[q - 2];
    }
  }

  /** A heading and its body form such a piece. */
  lemma HeadingThenBody(gap: string, name: string, b: string)
    requires AllPatternSpace(gap) && LabelLike(name) && NoHash(b)
    ensures RunOnTail(Heading(gap, name) + b) && 3 <= |Heading(gap, name) + b|
  {
    var H := Heading(gap, name);
    var T := H + b;
    assert T[0] == H[0] && T[1] == H[1];
    forall q | 2 <= q < |T| ensures T[q] != '#' {
      if q < |H| {
        HeadingTail(gap, name, q);
        assert T[q] == H[q];
      } else {
        assert T[q] == b[q - |H|];
      }
    }
  }

  /** Past the opening `##` of such a piece no `##` starts inside it. */
  lemma RunOnTailHasNoPair(s: string, k: nat, T: string)
    requires StartsAt(s, k, T) && RunOnTail(T) && (k + |T| == |s| || 3 <= |T|)
    ensures forall p :: k + 1 <= p < k + |T| ==> !StartsAt(s, p, "##")
  {
    forall p | k + 1 <= p < k + |T| ensures !StartsAt(s, p, "##") {
      if p + 1 < k + |T| {
        StartsAtIndex(s, k, T, p + 1 - k);
        NoPairAt(s, p);
      } else if p + 1 < |s| {
        StartsAtIndex(s, k, T, p - k);
        NoPairAt(s, p);
      }
    }
  }

  /** Whitespace and then such a piece: the group starts at its `##` and
      runs to its end, less trailing whitespace when it ends the text. */
  lemma GroupOfRunOn(s: string, e: nat, w: string, T: string) returns (r: nat)
    requires StartsAt(s, e, w) && StartsAt(s, e + |w|, T) && AllPatternSpace(w) && RunOnTail(T)
    requires RunOnStops(s, e + |w|, T)
    ensures e + |w| < r <= e + |w| + |T| && GroupAfterLabel(s, e) == Some(s[e + |w|..r])
    ensures AllWhitespace(T[r - (e + |w|)..])
  {
    var k := e + |w|;
    SkipToPiece(s, e, w, T);
    GroupAt(s, e, k);
    r := RunOnLazyEnd(s, k, T);
  }

  /** Where the lazy group that starts at such a piece ends. */
  lemma RunOnLazyEnd(s: string, k: nat, T: string) returns (r: nat)
    requires StartsAt(s, k, T) && RunOnTail(T) && RunOnStops(s, k, T)
    ensures k < |s| && r == LazyEnd(s, k + 1) && k < r <= k + |T| && AllWhitespace(T[r - k..])
  {
    RunOnTailHasNoPair(s, k, T);
    if k + |T| == |s| && T[|T| - 1] != '\U{85}' {
      StartsAtIndex(s, k, T, |T| - 1);
      LazyEndAtTail(s, k + 1);
      r := LazyEnd(s, k + 1);
      TailOfPiece(s, k, T, r - k);
    } else {
      LazyEndAtPair(s, k + 1, k + |T|);
      r := k + |T|;
    }
  }

  /** `\s*` over whitespace `w` stops at a piece that starts with `#`. */
  lemma SkipToPiece(s: string, e: nat, w: string, T: string)
    requires StartsAt(s, e, w) && StartsAt(s, e + |w|, T) && AllPatternSpace(w) && T != [] && T[0] == '#'
    ensures e + |w| < |s| && SkipSpace(s, e) == e + |w|
  {
    var k := e + |w|;
    forall q | e <= q < k ensures IsPatternSpace(s[q]) {
      StartsAtIndex(s, e, w, q - e);
    }
    StartsAtIndex(s, k, T, 0);
    SkipSpaceExact(s, e, k);
  }

  /** Where the pieces of `pre + H + w + T + more` sit. */
  lemma LayoutOfRunOn(pre: string, H: string, w: string, T: string, more: string)
    ensures var s := pre + H + w + T + more;
            StartsAt(s, |pre|, H) && StartsAt(s, |pre| + |H|, w) &&
            StartsAt(s, |pre| + |H| + |w|, T) && StartsAt(s, |pre| + |H| + |w| + |T|, more) &&
            |pre| + |H| + |w| + |T| + |more| == |s|
  {
    var s1 := pre + H + w;
    var s2 := s1 + T;
    var s := s2 + more;
    LayoutOfBlank(pre, H, w);
    StartsAtWhole(s1, T);
    StartsAtWhole(s2, more);
    StartsAtTrans(s2, 0, s1, |pre| + |H|, w);
    StartsAtTrans(s2, 0, s1, |pre|, H);
    StartsAtTrans(s, 0, s2, |pre| + |H|, w);
    StartsAtTrans(s, 0, s2, |pre|, H);
    StartsAtTrans(s, 0, s2, |s1|, T);
  }

  /** At `h`: a heading, whitespace `w` and a run-on piece `T`. */
  predicate RunOnLaidOut(s: string, h: nat, gap: string, name: string, w: string, T: string) {
    StartsAt(s, h, Heading(gap, name)) && AllPatternSpace(gap) && LabelLike(name) &&
    StartsAt(s, h + |Heading(gap, name)|, w) && StartsAt(s, h + |Heading(gap, name)| + |w|, T) &&
    AllPatternSpace(w) && RunOnTail(T) && RunOnStops(s, h + |Heading(gap, name)| + |w|, T)
  }

  /** Such a layout: the group after the label is the piece less some
      trailing whitespace. */
  lemma RunOnGroup(s: string, h: nat, gap: string, name: string, w: string, T: string) returns (k: nat, r: nat)
    requires RunOnLaidOut(s, h, gap, name, w, T)
    ensures h + |Heading(gap, name)| <= |s| && StartsAt(s, k, T) && k < r <= k + |T|
    ensures GroupAfterLabel(s, h + |Heading(gap, name)|) == Some(s[k..r]) && AllWhitespace(T[r - k..])
  {
    var e := h + |Heading(gap, name)|;
    r := GroupOfRunOn(s, e, w, T);
    k := e + |w|;
  }

  /** With no earlier match, `find` matches at the heading. */
  lemma RunOnAt(s: string, h: nat, gap: string, name: string, w: string, T: string) returns (k: nat, r: nat)
    requires RunOnLaidOut(s, h, gap, name, w, T) && h <= |s| && NoMatchBefore(s, name, h)
    ensures StartsAt(s, k, T) && k < r <= k + |T|
    ensures FindFrom(s, name, 0) == Some(s[k..r]) && AllWhitespace(T[r - k..])
  {
    k, r := RunOnGroup(s, h, gap, name, w, T);
    FoundAtHeading(s, h, gap, name, s[k..r]);
  }

  /** ... and the slot is the trimmed piece. */
  lemma RunOnFound(s: string, h: nat, gap: string, name: string, w: string, T: string)
    requires RunOnLaidOut(s, h, gap, name, w, T) && h <= |s| && NoMatchBefore(s, name, h)
    ensures FindFrom(s, name, 0).Some? && Trim(FindFrom(s, name, 0).value) == Trim(T)
  {
    var k, r := RunOnAt(s, h, gap, name, w, T);
    TrimOfRunOn(s, k, r, T, s[k..r]);
  }

  /** Cutting trailing whitespace off a piece found in `s` keeps its trim. */
  lemma TrimOfRunOn(s: string, k: nat, r: nat, T: string, u: string)
    requires StartsAt(s, k, T) && k <= r <= k + |T| && AllWhitespace(T[r - k..]) && u == s[k..r]
    ensures Trim(u) == Trim(T)
  {
    SliceOfPiece(s, k, T, 0, r - k);
    assert u == T[..r - k];
    TrimOfPrefix(T, r - k, u);
  }

  /** A section whose heading is followed by nothing but whitespace and the
      next `##` takes that `##` and the text after it as its slot, up to the
      following `##` or the end of the text. */
  lemma EmptySectionRunsOn(pre: string, gap: string, sec: Section, w: string, rest: string, more: string)
    requires AllPatternSpace(gap) && AllPatternSpace(w) && NoHash(rest)
    requires (more == [] && (rest == [] || rest[|rest| - 1] != '\U{85}')) ||
             (rest != [] && StartsAt(more, 0, "##"))
    requires NoMatchBefore(pre + Heading(gap, Label(sec)) + w + ("##" + rest) + more, Label(sec), |pre|)
    ensures Slot(pre + Heading(gap, Label(sec)) + w + ("##" + rest) + more, sec) == Trim("##" + rest)
  {
    LabelsAreLabelLike();
    RunOnReply(pre, gap, Label(sec), w, rest, more);
  }

  /** The same for any label, in terms of `find`. */
  lemma RunOnReply(pre: string, gap: string, name: string, w: string, rest: string, more: string)
    requires AllPatternSpace(gap) && LabelLike(name) && AllPatternSpace(w) && NoHash(rest)
    requires (more == [] && (rest == [] || rest[|rest| - 1] != '\U{85}')) ||
             (rest != [] && StartsAt(more, 0, "##"))
    requires NoMatchBefore(pre + Heading(gap, name) + w + ("##" + rest) + more, name, |pre|)
    ensures var s := pre + Heading(gap, name) + w + ("##" + rest) + more;
            FindFrom(s, name, 0).Some? && Trim(FindFrom(s, name, 0).value) == Trim("##" + rest)
  {
    var H := Heading(gap, name);
    var T := "##" + rest;
    var s := pre + H + w + T + more;
    var k := |pre| + |H| + |w|;
    RunOnTailOf(rest);
    LayoutOfRunOn(pre, H, w, T, more);
    RunOnEnds(s, k, rest, more);
    assert RunOnLaidOut(s, |pre|, gap, name, w, T);
    RunOnFound(s, |pre|, gap, name, w, T);
  }

  /** `##`, text without `#` and then the end of the text or another `##`. */
  lemma RunOnEnds(s: string, k: nat, rest: string, more: string)
    requires StartsAt(s, k, "##" + rest) && StartsAt(s, k + |"##" + rest|, more)
    requires k + |"##" + rest| + |more| == |s|
    requires (more == [] && (rest == [] || rest[|rest| - 1] != '\U{85}')) ||
             (rest != [] && StartsAt(more, 0, "##"))
    ensures RunOnStops(s, k, "##" + rest)
  {
    var T := "##" + rest;
    if more == [] {
      assert T[|T| - 1] == if rest == [] then '#' else rest[|rest| - 1];
    } else {
      StartsAtTrans(s, k + |T|, more, 0, "##");
    }
  }

  /** In a three-heading text whose first body is blank, the first label's
      slot is the second heading and its body, trimmed. */
  lemma FirstRunsOn(s: string, pre: string, g1: string, L1: string, b1: string, g2: string, L2: string,
                    b2: string, g3: string, L3: string, b3: string)
    requires ThreeLaidOut(s, pre, g1, L1, b1, g2, L2, b2, g3, L3, b3) && AllPatternSpace(b1)
    ensures FindFrom(s, L1, 0).Some? && Trim(FindFrom(s, L1, 0).value) == Trim(Heading(g2, L2) + b2)
  {
    var h2 := |pre| + |Heading(g1, L1)| + |b1|;
    var h3 := h2 + |Heading(g2, L2)| + |b2|;
    var T := Heading(g2, L2) + b2;
    NoMatchBeforeFirst(s, pre, g1, L1, b1, g2, L2, b2, g3, L3, b3);
    StartsAtJoin(s, h2, Heading(g2, L2), b2);
    HeadingThenBody(g2, L2, b2);
    NextHeadingFollows(s, h3, g3, L3);
    assert RunOnLaidOut(s, |pre|, g1, L1, b1, T);
    RunOnFound(s, |pre|, g1, L1, b1, T);
  }

  /** A full reply whose first section is empty: the interpretation slot
      runs on over the second heading and its body, up to the third `##`. */
  lemma EmptyFirstSectionRunsOn(pre: string, g1: string, w: string, g2: string, b2: string, g3: string, b3: string)
    requires NoPair(pre) && AllPatternSpace(g1) && AllPatternSpace(g2) && AllPatternSpace(g3)
    requires AllPatternSpace(w) && WellFormedBody(b2) && WellFormedBody(b3)
    ensures ParseFullAnalysis(Reply(pre, g1, w, g2, b2, g3, b3)) ==
            Sections(Trim(Heading(g2, Label(Conditions)) + b2), Trim(b2), Trim(b3))
  {
    var L1, L2, L3 := Label(Interpretation), Label(Conditions), Label(Treatment);
    var s := Reply(pre, g1, w, g2, b2, g3, b3);
    PatternSpaceNoHash(w);
    ReplyLaidOut(pre, g1, w, g2, b2, g3, b3);
    FirstRunsOn(s, pre, g1, L1, w, g2, L2, b2, g3, L3, b3);
    SecondOfThree(s, pre, g1, L1, w, g2, L2, b2, g3, L3, b3);
    ThirdOfThree(s, pre, g1, L1, w, g2, L2, b2, g3, L3, b3);
  }

  /** Every slot, found or fallback, has no whitespace at either end. */
  lemma SlotsTrimmed(text: string)
    ensures Trimmed(ParseFullAnalysis(text).interpretation)
    ensures Trimmed(ParseFullAnalysis(text).conditions)
    ensures Trimmed(ParseFullAnalysis(text).treatment)
  {
    SlotTrimmed(text, Interpretation);
    SlotTrimmed(text, Conditions);
    SlotTrimmed(text, Treatment);
  }

  lemma SlotTrimmed(text: string, sec: Section)
    ensures Trimmed(Slot(text, sec))
  {
    match FindFrom(text, Label(sec), 0)
    case Some(g) =>
      var a, b := TrimSplits(g);
    case None =>
  }
}
