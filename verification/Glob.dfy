/** Glob matching of namespaces and destinations: `MatchGlob`, and the two older matchers
    `MatchNamespace` and `matchesWildcard`, against one declarative meaning of `*`. */
module Glob {
  import opened Text

  const MAX_GLOB_SEGMENTS := 100

  function Stars(pattern: string): (n: nat) {
    if pattern == "" then 0
    else (if pattern[0] == '*' then 1 else 0) + Stars(pattern[1..])
  }

  /** The pattern with its k-th star replaced by the k-th filler. */
  ghost function Expand(pattern: string, fillers: seq<string>): (text: string)
    requires |fillers| == Stars(pattern)
  {
    if pattern == "" then ""
    else if pattern[0] == '*' then fillers[0] + Expand(pattern[1..], fillers[1..])
    else [pattern[0]] + Expand(pattern[1..], fillers)
  }

  /** What a glob means: some choice of fillers for the stars spells out the text. */
  ghost predicate Matches(pattern: string, text: string) {
    exists fillers: seq<string> :: Spells(pattern, fillers, text)
  }

  ghost predicate Spells(pattern: string, fillers: seq<string>, text: string) {
    |fillers| == Stars(pattern) && Expand(pattern, fillers) == text
  }

  /** `text` is gap segs[0] gap segs[1] ... gap segs[n-1], with nothing after the last segment. */
  ghost predicate After(segs: seq<string>, text: string)
    decreases |segs|
  {
    if segs == [] then text == ""
    else exists gap: nat :: OccursAt(text, segs[0], gap) && After(segs[1..], text[gap + |segs[0]|..])
  }

  lemma {:induction false} SegmentCount(pattern: string)
    ensures |Split(pattern, '*')| == Stars(pattern) + 1
  {
    if pattern != "" {
      SegmentCount(pattern[1..]);
    }
  }

  lemma {:induction false} StarFree(pattern: string)
    ensures Stars(pattern) == 0 <==> Free(pattern, '*')
    ensures Stars(pattern) == 0 ==> Expand(pattern, []) == pattern
  {
    if pattern != "" {
      StarFree(pattern[1..]);
      assert pattern == [pattern[0]] + pattern[1..];
    }
  }

  /** The same with positions instead of slices: segments `i` onwards fill `text` from `pos`. */
  ghost predicate Fill(segs: seq<string>, i: nat, text: string, pos: nat)
    requires i <= |segs|
    decreases |segs| - i
  {
    if i == |segs| then pos == |text|
    else exists at: nat :: pos <= at && OccursAt(text, segs[i], at) && Fill(segs, i + 1, text, at + |segs[i]|)
  }

  lemma {:induction false} FillIsAfter(segs: seq<string>, i: nat, text: string, pos: nat)
    requires i <= |segs| && pos <= |text|
    ensures Fill(segs, i, text, pos) <==> After(segs[i..], text[pos..])
    decreases |segs| - i
  {
    if i < |segs| {
      assert segs[i..][1..] == segs[i + 1..];
      forall gap: nat | OccursAt(text[pos..], segs[i], gap)
        ensures OccursAt(text, segs[i], pos + gap)
        ensures After(segs[i + 1..], text[pos..][gap + |segs[i]|..]) <==> Fill(segs, i + 1, text, pos + gap + |segs[i]|)
      {
        assert text[pos..][gap..] == text[pos + gap..];
        assert text[pos..][gap + |segs[i]|..] == text[pos + gap + |segs[i]|..];
        FillIsAfter(segs, i + 1, text, pos + gap + |segs[i]|);
      }
      forall at: nat | pos <= at && OccursAt(text, segs[i], at)
        ensures OccursAt(text[pos..], segs[i], at - pos)
      {
        assert text[pos..][at - pos..] == text[at..];
      }
    }
  }

  /** The exchange argument: if the remaining segments fit at all, they still fit with
      segment `i` at its leftmost occurrence, as long as another segment follows. */
  lemma {:induction false} GreedyStep(segs: seq<string>, i: nat, text: string, pos: nat)
    requires i + 1 < |segs|
    ensures var k := IndexFrom(text, segs[i], pos);
            Fill(segs, i, text, pos) <==> 0 <= k && Fill(segs, i + 1, text, k + |segs[i]|)
  {
    var k := IndexFrom(text, segs[i], pos);
    if Fill(segs, i, text, pos) {
      var at: nat :| pos <= at && OccursAt(text, segs[i], at) && Fill(segs, i + 1, text, at + |segs[i]|);
      WidenGap(segs, i + 1, text, at + |segs[i]|, k + |segs[i]|);
    }
  }

  /** The gap before a segment can always start earlier. */
  lemma {:induction false} WidenGap(segs: seq<string>, i: nat, text: string, pos: nat, earlier: nat)
    requires i < |segs| && earlier <= pos && Fill(segs, i, text, pos)
    ensures Fill(segs, i, text, earlier)
  {
  }

  /** The last segment has no choice: it must be a suffix, which the leftmost search followed by
      the suffix test decides. */
  lemma {:induction false} LastSegment(segs: seq<string>, text: string, pos: nat)
    requires segs != []
    ensures var last := segs[|segs| - 1];
            Fill(segs, |segs| - 1, text, pos) <==> 0 <= IndexFrom(text, last, pos) && HasSuffix(text, last)
  {
    var last := segs[|segs| - 1];
    if HasSuffix(text, last) {
      assert OccursAt(text, last, |text| - |last|);
    }
    forall at: nat | OccursAt(text, last, at) && Fill(segs, |segs|, text, at + |last|)
      ensures HasSuffix(text, last)
    {
      assert text[at..] == last;
    }
  }

  ghost predicate FitsSegments(pattern: string, text: string) {
    var segs := Split(pattern, '*');
    segs[0] <= text && (if Stars(pattern) == 0 then text == segs[0] else After(segs[1..], text[|segs[0]|..]))
  }

  /** The declarative meaning, read off the segments between the stars. */
  lemma {:induction false} MatchesBySegments(pattern: string, text: string)
    ensures Matches(pattern, text) <==> FitsSegments(pattern, text)
  {
    if Matches(pattern, text) {
      var fillers: seq<string> :| Spells(pattern, fillers, text);
      ExpandFits(pattern, fillers);
    }
    if FitsSegments(pattern, text) {
      var fillers := FillersFor(pattern, text);
    }
  }

  lemma {:induction false} ExpandFits(pattern: string, fillers: seq<string>)
    requires |fillers| == Stars(pattern)
    ensures FitsSegments(pattern, Expand(pattern, fillers))
  {
    if pattern != "" {
      SegmentCount(pattern[1..]);
      var segs, text := Split(pattern, '*'), Expand(pattern, fillers);
      var rest := Split(pattern[1..], '*');
      if pattern[0] == '*' {
        ExpandFits(pattern[1..], fillers[1..]);
        var tail := Expand(pattern[1..], fillers[1..]);
        var gap := |fillers[0]|;
        assert segs[1..] == rest && text[|segs[0]|..] == text;
        assert text[gap..] == tail;
        assert OccursAt(text, rest[0], gap);
        if Stars(pattern[1..]) == 0 {
          assert rest[1..] == [] && text[gap + |rest[0]|..] == "";
        } else {
          assert text[gap + |rest[0]|..] == tail[|rest[0]|..];
        }
      } else {
        ExpandFits(pattern[1..], fillers);
        var tail := Expand(pattern[1..], fillers);
        assert segs[1..] == rest[1..];
        assert text[|segs[0]|..] == tail[|rest[0]|..];
      }
    }
  }

  lemma {:induction false} FillersFor(pattern: string, text: string) returns (fillers: seq<string>)
    requires FitsSegments(pattern, text)
    ensures Spells(pattern, fillers, text)
  {
    if pattern == "" {
      fillers := [];
    } else if pattern[0] == '*' {
      var gap := FirstGap(pattern, text);
      var tail := FillersFor(pattern[1..], text[gap..]);
      fillers := [text[..gap]] + tail;
      ExpandStar(pattern, text, gap, tail);
    } else {
      FirstByte(pattern, text);
      fillers := FillersFor(pattern[1..], text[1..]);
      assert text == [text[0]] + text[1..];
    }
  }

  lemma {:induction false} ExpandStar(pattern: string, text: string, gap: nat, tail: seq<string>)
    requires pattern != "" && pattern[0] == '*' && gap <= |text|
    requires Spells(pattern[1..], tail, text[gap..])
    ensures Spells(pattern, [text[..gap]] + tail, text)
  {
    assert ([text[..gap]] + tail)[1..] == tail;
  }

  lemma {:induction false} FirstGap(pattern: string, text: string) returns (gap: nat)
    requires pattern != "" && pattern[0] == '*' && FitsSegments(pattern, text)
    ensures gap <= |text| && FitsSegments(pattern[1..], text[gap..])
  {
    var segs, rest := Split(pattern, '*'), Split(pattern[1..], '*');
    SegmentCount(pattern[1..]);
    assert segs[1..] == rest && text[|segs[0]|..] == text;
    gap :| OccursAt(text, rest[0], gap) && After(rest[1..], text[gap + |rest[0]|..]);
    assert text[gap + |rest[0]|..] == text[gap..][|rest[0]|..];
  }

  lemma {:induction false} FirstByte(pattern: string, text: string)
    requires pattern != "" && pattern[0] != '*' && FitsSegments(pattern, text)
    ensures text != "" && text[0] == pattern[0] && FitsSegments(pattern[1..], text[1..])
  {
    var segs, rest := Split(pattern, '*'), Split(pattern[1..], '*');
    assert segs[1..] == rest[1..];
    assert text[0] == segs[0][0];
    assert rest[0] == segs[0][1..];
    assert text[|segs[0]|..] == text[1..][|rest[0]|..];
  }

  /** MatchGlob is exactly glob matching on patterns of at most 100 segments. */
  method MatchGlob(pattern: string, text: string) returns (matched: bool)
    ensures matched <==> Stars(pattern) < MAX_GLOB_SEGMENTS && Matches(pattern, text)
  {
    LiteralMatches(pattern, text);
    if pattern == "" {
      return text == "";
    }
    if pattern == "*" {
      TrailingStarMatches("", text);
      assert "" + "*" == "*" && Stars("*") == 1;
      return true;
    }
    if Free(pattern, '*') {
      return pattern == text;
    }
    var segments := Split(pattern, '*');
    PatternEnds(pattern);
    if |segments| > MAX_GLOB_SEGMENTS {
      return false;
    }
    MatchesFromStart(pattern, text);
    matched := ScanSegments(segments, text, pattern[0] == '*', pattern[|pattern| - 1] == '*', Matches(pattern, text));
  }

  /** The loop of MatchGlob over the segments between the stars: leftmost search, then the suffix test. */
  method ScanSegments(segments: seq<string>, text: string, leadingStar: bool, trailingStar: bool, ghost fits: bool)
    returns (matched: bool)
    requires Scanned(segments, text, fits, 0, 0)
    requires leadingStar <==> segments[0] == ""
    requires trailingStar ==> segments[|segments| - 1] == ""
    ensures matched <==> fits
  {
    var pos := 0;
    for i := 0 to |segments|
      invariant 0 <= pos && Scanned(segments, text, fits, i, pos)
    {
      var segment := segments[i];
      ScanStep(segments, text, fits, i, pos);
      if segment == "" {
        assert OccursAt(text, segment, pos);
        continue;
      }
      var at := IndexFrom(text, segment, pos);
      if at == -1 {
        return false;
      }
      if i == 0 && !leadingStar && at != pos {
        return false;
      }
      pos := at + |segment|;
    }
    if !trailingStar {
      var last := segments[|segments| - 1];
      if last != "" && !HasSuffix(text, last) {
        return false;
      }
    }
    return true;
  }

  /** Whether the text fits the segments, as far as it is still open once the first `i` segments end at `pos`. */
  ghost predicate Scanned(segs: seq<string>, text: string, fits: bool, i: nat, pos: nat) {
    && |segs| >= 2 && i <= |segs| && pos <= |text|
    && (i == 0 ==> pos == 0 && (fits <==> segs[0] <= text && Fill(segs, 1, text, |segs[0]|)))
    && (0 < i < |segs| ==> (fits <==> Fill(segs, i, text, pos)))
    && (i == |segs| ==> (fits <==> HasSuffix(text, segs[|segs| - 1])))
  }

  lemma {:induction false} ScanStep(segs: seq<string>, text: string, fits: bool, i: nat, pos: nat)
    requires i < |segs| && Scanned(segs, text, fits, i, pos)
    ensures var at := IndexFrom(text, segs[i], pos);
            if at < 0 || (i == 0 && at != pos) then !fits else Scanned(segs, text, fits, i + 1, at + |segs[i]|)
  {
    if i == 0 {
      assert text[0..] == text;
      assert segs[0] <= text <==> OccursAt(text, segs[0], 0);
    } else if i + 1 < |segs| {
      GreedyStep(segs, i, text, pos);
    } else {
      LastSegment(segs, text, pos);
    }
  }

  lemma {:induction false} MatchesFromStart(pattern: string, text: string)
    requires Stars(pattern) > 0
    ensures Scanned(Split(pattern, '*'), text, Matches(pattern, text), 0, 0)
  {
    SegmentCount(pattern);
    MatchesBySegments(pattern, text);
    var segs := Split(pattern, '*');
    if segs[0] <= text {
      FillIsAfter(segs, 1, text, |segs[0]|);
    }
  }

  lemma {:induction false} PatternEnds(pattern: string)
    requires pattern != ""
    ensures var segs := Split(pattern, '*');
            && |segs| == Stars(pattern) + 1
            && (segs[0] == "" <==> pattern[0] == '*')
            && (pattern[|pattern| - 1] == '*' ==> segs[|segs| - 1] == "")
  {
    SegmentCount(pattern);
    if |pattern| > 1 {
      PatternEnds(pattern[1..]);
      SegmentCount(pattern[1..]);
    }
  }

  lemma {:induction false} LiteralMatches(pattern: string, text: string)
    ensures Free(pattern, '*') <==> Stars(pattern) == 0
    ensures Free(pattern, '*') ==> (Matches(pattern, text) <==> pattern == text)
  {
    StarFree(pattern);
    if Free(pattern, '*') {
      assert Spells(pattern, [], pattern);
    }
  }

  /** Namespace matching for project destinations, in the order of the source's tests. */
  predicate MatchNamespace(namespace: string, pattern: string) {
    if pattern == "" then false
    else if pattern == "*" then true
    else if pattern[|pattern| - 1] == '*' then HasPrefix(namespace, pattern[..|pattern| - 1])
    else if pattern[0] == '*' then HasSuffix(namespace, pattern[1..])
    else namespace == pattern
  }

  /** The project service's own matcher. */
  predicate MatchesWildcard(pattern: string, value: string) {
    if pattern == "*" then true
    else if |pattern| > 0 && pattern[|pattern| - 1] == '*' then
      var prefix := pattern[..|pattern| - 1];
      |value| >= |prefix| && value[..|prefix|] == prefix
    else if |pattern| > 0 && pattern[0] == '*' then
      var suffix := pattern[1..];
      |value| >= |suffix| && value[|value| - |suffix|..] == suffix
    else pattern == value
  }

  /** At most one star, and that one at an end. */
  predicate Simple(pattern: string) {
    Free(pattern, '*')
    || (pattern[|pattern| - 1] == '*' && Free(pattern[..|pattern| - 1], '*'))
    || (pattern[0] == '*' && Free(pattern[1..], '*'))
  }

  lemma {:induction false} StarsAppend(a: string, b: string)
    ensures Stars(a + b) == Stars(a) + Stars(b)
  {
    if a == "" {
      assert a + b == b;
    } else {
      StarsAppend(a[1..], b);
      assert (a + b)[1..] == a[1..] + b;
    }
  }

  lemma {:induction false} ExpandTrailingStar(prefix: string, filler: string)
    requires Free(prefix, '*')
    ensures Stars(prefix + "*") == 1 && Spells(prefix + "*", [filler], prefix + filler)
  {
    StarFree(prefix);
    StarsAppend(prefix, "*");
    assert Stars("*") == 1;
    if prefix != "" {
      ExpandTrailingStar(prefix[1..], filler);
      assert (prefix + "*")[1..] == prefix[1..] + "*";
      assert prefix + filler == [prefix[0]] + (prefix[1..] + filler);
    } else {
      assert prefix + "*" == "*";
      assert Expand("*", [filler]) == filler + Expand("", []);
    }
  }

  lemma {:induction false} SimpleMatches(pattern: string, text: string)
    requires pattern != "" && Simple(pattern)
    ensures Matches(pattern, text) <==> MatchNamespace(text, pattern)
  {
    StarFree(pattern);
    if Free(pattern, '*') {
      assert Spells(pattern, [], pattern);
    } else if pattern[|pattern| - 1] == '*' && Free(pattern[..|pattern| - 1], '*') {
      assert pattern == pattern[..|pattern| - 1] + "*";
      TrailingStarMatches(pattern[..|pattern| - 1], text);
    } else {
      assert pattern == "*" + pattern[1..];
      LeadingStarMatches(pattern[1..], text);
    }
  }

  lemma {:induction false} TrailingStarMatches(prefix: string, text: string)
    requires Free(prefix, '*')
    ensures Matches(prefix + "*", text) <==> HasPrefix(text, prefix)
  {
    if Matches(prefix + "*", text) {
      var fillers: seq<string> :| Spells(prefix + "*", fillers, text);
      ExpandTrailingStar(prefix, "");
      ExpandTrailingStar(prefix, fillers[0]);
      assert fillers == [fillers[0]];
    }
    if HasPrefix(text, prefix) {
      ExpandTrailingStar(prefix, text[|prefix|..]);
      assert prefix + text[|prefix|..] == text;
    }
  }

  lemma {:induction false} LeadingStarMatches(suffix: string, text: string)
    requires Free(suffix, '*')
    ensures Matches("*" + suffix, text) <==> HasSuffix(text, suffix)
  {
    var pattern := "*" + suffix;
    if Matches(pattern, text) {
      var fillers: seq<string> :| Spells(pattern, fillers, text);
      ExpandLeadingStar(suffix, "");
      ExpandLeadingStar(suffix, fillers[0]);
      assert fillers == [fillers[0]];
      SuffixOfConcat(fillers[0], suffix);
    }
    if HasSuffix(text, suffix) {
      ExpandLeadingStar(suffix, text[..|text| - |suffix|]);
      assert text == text[..|text| - |suffix|] + suffix;
    }
  }

  lemma {:induction false} ExpandLeadingStar(suffix: string, filler: string)
    requires Free(suffix, '*')
    ensures Stars("*" + suffix) == 1 && Spells("*" + suffix, [filler], filler + suffix)
  {
    StarFree(suffix);
    assert ("*" + suffix)[1..] == suffix;
    assert [filler][1..] == [];
  }

  /** Dropping every star gives a text the glob matches. */
  lemma {:induction false} DropStars(pattern: string) returns (text: string)
    ensures Matches(pattern, text) && Free(text, '*')
  {
    if pattern == "" {
      text := "";
      assert Spells("", [], "");
    } else {
      var tail := DropStars(pattern[1..]);
      var fillers: seq<string> :| Spells(pattern[1..], fillers, tail);
      if pattern[0] == '*' {
        text := tail;
        assert ([""] + fillers)[1..] == fillers;
        assert Spells(pattern, [""] + fillers, text);
      } else {
        text := [pattern[0]] + tail;
        assert Spells(pattern, fillers, text);
      }
    }
  }

  /** The three matchers agree on every text exactly on non-empty patterns with at most one star, at an end. */
  lemma {:induction false} MatchersAgreeExactly(pattern: string)
    ensures (forall text :: Matches(pattern, text) == MatchNamespace(text, pattern)) <==> pattern != "" && Simple(pattern)
    ensures (forall text :: Matches(pattern, text) == MatchesWildcard(pattern, text)) <==> Simple(pattern)
  {
    if pattern == "" {
      assert Spells("", [], "");
      assert Matches("", "") && !MatchNamespace("", "");
      assert forall text :: Matches("", text) ==> text == "";
    } else if Simple(pattern) {
      forall text { SimpleMatches(pattern, text); }
    } else {
      var text := DropStars(pattern);
      if MatchNamespace(text, pattern) {
        StarFreeTextNeedsSimple(pattern, text);
      }
      assert Matches(pattern, text) != MatchNamespace(text, pattern);
    }
  }

  lemma {:induction false} StarFreeTextNeedsSimple(pattern: string, text: string)
    requires MatchNamespace(text, pattern) && Free(text, '*')
    ensures Simple(pattern)
  {
    var n := |pattern|;
    if pattern == "*" {
      assert Free(pattern[1..], '*');
    } else if pattern[n - 1] == '*' {
      assert forall k :: 0 <= k < n - 1 ==> pattern[..n - 1][k] == text[k] && text[k] in text;
    } else if pattern[0] == '*' {
      assert forall k :: 0 <= k < n - 1 ==> pattern[1..][k] == text[|text| - n + 1..][k] == text[|text| - n + 1 + k];
    }
  }
}
