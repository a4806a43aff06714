/** Cleaning the group claims of an OIDC token. Group names are bytes; validity is that of RFC 3629,
    section 4, and control characters are those of Unicode category Cc. */
module OidcGroups {
  import opened Wrappers

  const MAX_OIDC_GROUPS := 500
  const MAX_OIDC_GROUP_NAME_LENGTH := 256

  type Byte = b: int | 0 <= b < 256

  // ---- UTF-8 ----

  predicate Tail(b: Byte) { 0x80 <= b <= 0xBF }

  /** The length of the character that `s` starts with, or 0 if there is none. */
  function FirstLength(s: seq<Byte>): (n: nat)
    ensures n <= 4 && n <= |s|
  {
    if |s| >= 1 && s[0] <= 0x7F then 1
    else if |s| >= 2 && 0xC2 <= s[0] <= 0xDF && Tail(s[1]) then 2
    else if |s| >= 3 && SecondOfThree(s[0], s[1]) && Tail(s[2]) then 3
    else if |s| >= 4 && SecondOfFour(s[0], s[1]) && Tail(s[2]) && Tail(s[3]) then 4
    else 0
  }

  /** No overlong forms and no surrogates. */
  predicate SecondOfThree(first: Byte, second: Byte) {
    || (first == 0xE0 && 0xA0 <= second <= 0xBF)
    || (0xE1 <= first <= 0xEC && Tail(second))
    || (first == 0xED && 0x80 <= second <= 0x9F)
    || (0xEE <= first <= 0xEF && Tail(second))
  }

  /** No overlong forms and nothing above U+10FFFF. */
  predicate SecondOfFour(first: Byte, second: Byte) {
    || (first == 0xF0 && 0x90 <= second <= 0xBF)
    || (0xF1 <= first <= 0xF3 && Tail(second))
    || (first == 0xF4 && 0x80 <= second <= 0x8F)
  }

  predicate Valid(s: seq<Byte>) {
    s == [] || (FirstLength(s) > 0 && Valid(s[FirstLength(s)..]))
  }

  function FirstRune(s: seq<Byte>): (c: nat)
    requires FirstLength(s) > 0
  {
    match FirstLength(s)
    case 1 => s[0]
    case 2 => Then(s[0] as int - 0xC0, s[1])
    case 3 => Then(Then(s[0] as int - 0xE0, s[1]), s[2])
    case _ => Then(Then(Then(s[0] as int - 0xF0, s[1]), s[2]), s[3])
  }

  /** Six more bits from a tail byte. */
  function Then(high: int, tail: Byte): int { high * 64 + tail as int - 0x80 }

  function LastSix(c: nat): (b: Byte)
    ensures Tail(b)
  { 0x80 + c % 64 }

  function Runes(s: seq<Byte>): (runes: seq<nat>)
    requires Valid(s)
  {
    if s == [] then [] else [FirstRune(s)] + Runes(s[FirstLength(s)..])
  }

  predicate Scalar(c: nat) { c <= 0x10FFFF && !(0xD800 <= c <= 0xDFFF) }

  function EncodeRune(c: nat): (s: seq<Byte>)
    requires Scalar(c)
  {
    if c < 0x80 then [c]
    else if c < 0x800 then [0xC0 + c / 64, LastSix(c)]
    else if c < 0x10000 then [0xE0 + c / 64 / 64, LastSix(c / 64), LastSix(c)]
    else [0xF0 + c / 64 / 64 / 64, LastSix(c / 64 / 64), LastSix(c / 64), LastSix(c)]
  }

  function Encode(runes: seq<nat>): seq<Byte>
    requires forall c <- runes :: Scalar(c)
  {
    if runes == [] then [] else EncodeRune(runes[0]) + Encode(runes[1..])
  }

  /** The character a text starts with does not depend on what follows it. */
  lemma {:induction false} FirstLengthLocal(s: seq<Byte>, t: seq<Byte>)
    requires FirstLength(s) > 0 && FirstLength(s) <= |t| && s[..FirstLength(s)] == t[..FirstLength(s)]
    ensures FirstLength(t) == FirstLength(s) && FirstRune(t) == FirstRune(s)
  {
    var n := FirstLength(s);
    assert forall i | 0 <= i < n :: s[i] == s[..n][i] == t[..n][i] == t[i];
  }

  lemma {:induction false} ThenLastSix(c: nat)
    ensures Then(c / 64, LastSix(c)) == c
  {}

  lemma {:induction false} LastSixOfThen(high: nat, tail: Byte)
    requires Tail(tail)
    ensures Then(high, tail) >= 0 && Then(high, tail) / 64 == high && LastSix(Then(high, tail)) == tail
  {}

  lemma {:induction false} FirstRuneEncodes(s: seq<Byte>)
    requires FirstLength(s) > 0
    ensures Scalar(FirstRune(s)) && EncodeRune(FirstRune(s)) == s[..FirstLength(s)]
  {
    if FirstLength(s) == 2 {
      LastSixOfThen(s[0] - 0xC0, s[1]);
    } else if FirstLength(s) == 3 {
      LastSixOfThen(s[0] - 0xE0, s[1]);
      LastSixOfThen(Then(s[0] - 0xE0, s[1]), s[2]);
    } else if FirstLength(s) == 4 {
      LastSixOfThen(s[0] - 0xF0, s[1]);
      LastSixOfThen(Then(s[0] - 0xF0, s[1]), s[2]);
      LastSixOfThen(Then(Then(s[0] - 0xF0, s[1]), s[2]), s[3]);
    }
  }

  lemma {:induction false} EncodeRuneDecodes(c: nat)
    requires Scalar(c)
    ensures FirstLength(EncodeRune(c)) == |EncodeRune(c)| && FirstRune(EncodeRune(c)) == c
  {
    ThenLastSix(c);
    ThenLastSix(c / 64);
    ThenLastSix(c / 64 / 64);
  }

  /** Decoding and encoding undo each other: the valid texts are the encodings of scalar values. */
  lemma {:induction false} EncodeRunes(s: seq<Byte>)
    requires Valid(s)
    ensures (forall c <- Runes(s) :: Scalar(c)) && Encode(Runes(s)) == s
  {
    if s != [] {
      var first, rest := s[..FirstLength(s)], s[FirstLength(s)..];
      FirstRuneEncodes(s);
      EncodeRunes(rest);
      EncodeNext(FirstRune(s), Runes(rest));
      assert first + rest == s;
    }
  }

  lemma {:induction false} EncodeNext(c: nat, runes: seq<nat>)
    requires Scalar(c) && forall x <- runes :: Scalar(x)
    ensures Encode([c] + runes) == EncodeRune(c) + Encode(runes)
  {
    assert ([c] + runes)[1..] == runes;
  }

  lemma {:induction false} RunesOfEncoding(runes: seq<nat>)
    requires forall c <- runes :: Scalar(c)
    ensures Valid(Encode(runes)) && Runes(Encode(runes)) == runes
  {
    if runes != [] {
      var first, rest := EncodeRune(runes[0]), Encode(runes[1..]);
      EncodeRuneDecodes(runes[0]);
      RunesOfEncoding(runes[1..]);
      FirstLengthLocal(first, first + rest);
      assert (first + rest)[|first|..] == rest;
    }
  }

  /** unicode.IsControl. */
  predicate IsControl(c: nat) { c <= 0x1F || 0x7F <= c <= 0x9F }

  predicate HasControl(s: seq<Byte>)
    requires Valid(s)
  {
    AnyControl(Runes(s))
  }

  predicate AnyControl(runes: seq<nat>) { exists c <- runes :: IsControl(c) }

  /** Cutting a valid text at a character boundary keeps the characters before it. */
  lemma {:induction false} PrefixRunes(s: seq<Byte>, n: nat)
    requires n <= |s| && Valid(s) && Valid(s[..n])
    ensures Runes(s[..n]) <= Runes(s)
  {
    if n > 0 {
      var t := s[..n];
      var k := FirstLength(t);
      FirstLengthLocal(t, s);
      assert s[k..][..n - k] == t[k..];
      PrefixRunes(s[k..], n - k);
    }
  }

  // ---- truncation ----

  ghost predicate IsLongest(t: seq<Byte>, s: seq<Byte>, max: nat) {
    && t <= s && |t| <= max && Valid(t)
    && forall n | |t| < n <= |s| && n <= max :: !Valid(s[..n])
  }

  /** There is a character boundary at most 3 bytes before any position. */
  lemma {:induction false} BoundaryBefore(s: seq<Byte>, n: nat) returns (b: nat)
    requires Valid(s) && n <= |s|
    ensures n - 3 <= b <= n && Valid(s[..b])
  {
    var k := FirstLength(s);
    if n < k || s == [] {
      b := 0;
    } else {
      var rest := BoundaryBefore(s[k..], n - k);
      b := k + rest;
      FirstLengthLocal(s, s[..b]);
      assert s[..b][k..] == s[k..][..rest];
    }
  }

  /** A valid text loses at most 3 bytes below the limit. */
  lemma {:induction false} LongestIsLong(t: seq<Byte>, s: seq<Byte>, max: nat)
    requires IsLongest(t, s, max) && Valid(s)
    ensures |t| == |s| || |t| >= max - 3
  {
    var n := if |s| <= max then |s| else max;
    assert s[..|s|] == s;
    if |s| > max {
      var b := BoundaryBefore(s, n);
    }
  }

  method TruncateUtf8(s: seq<Byte>, maxBytes: nat) returns (t: seq<Byte>)
    ensures |s| <= maxBytes ==> t == s
    ensures |s| > maxBytes || Valid(s) ==> IsLongest(t, s, maxBytes)
    ensures Valid(s) ==> |t| == |s| || |t| >= maxBytes - 3
  {
    if |s| <= maxBytes {
      assert Valid(s) ==> IsLongest(s, s, maxBytes);
      return s;
    }
    t := s[..maxBytes];
    while |t| > 0 && !Valid(t)
      invariant t <= s && |t| <= maxBytes
      invariant forall n | |t| < n <= maxBytes :: !Valid(s[..n])
    {
      ghost var cut := |t|;
      assert t == s[..cut];
      t := t[..|t| - 1];
    }
    assert IsLongest(t, s, maxBytes);
    if Valid(s) {
      LongestIsLong(t, s, maxBytes);
    }
  }

  // ---- sanitizing ----

  ghost predicate Acceptable(g: seq<Byte>) {
    g != [] && Valid(g) && !HasControl(g)
  }

  /** What every group that comes out is. */
  ghost predicate Clean(g: seq<Byte>) {
    Acceptable(g) && |g| <= MAX_OIDC_GROUP_NAME_LENGTH
  }

  /** `out` lists the acceptable ones among `groups`, in order, each cut to its longest valid prefix. */
  ghost predicate Sanitized(out: seq<seq<Byte>>, groups: seq<seq<Byte>>) {
    if |groups| == 0 then out == []
    else
      var n := |groups| - 1;
      if !Acceptable(groups[n]) then Sanitized(out, groups[..n])
      else |out| > 0 && Sanitized(out[..|out| - 1], groups[..n])
           && IsLongest(out[|out| - 1], groups[n], MAX_OIDC_GROUP_NAME_LENGTH)
  }

  function FirstGroups(groups: seq<seq<Byte>>): seq<seq<Byte>> {
    if |groups| > MAX_OIDC_GROUPS then groups[..MAX_OIDC_GROUPS] else groups
  }

  /** None stands for a missing claim. */
  method SanitizeOidcGroups(claim: Option<seq<seq<Byte>>>) returns (validated: seq<seq<Byte>>)
    ensures claim.None? ==> validated == []
    ensures claim.Some? ==> Sanitized(validated, FirstGroups(claim.value))
  {
    if claim.None? {
      return [];
    }
    var groups := FirstGroups(claim.value);
    validated := [];
    for i := 0 to |groups|
      invariant Sanitized(validated, groups[..i])
    {
      var group := groups[i];
      NextGroup(validated, groups, i);
      if group == [] {
        continue;
      }
      if !Valid(group) {
        continue;
      }
      var hasControlChar := FindControl(group);
      if hasControlChar {
        continue;
      }
      if |group| > MAX_OIDC_GROUP_NAME_LENGTH {
        group := TruncateUtf8(group, MAX_OIDC_GROUP_NAME_LENGTH);
      } else {
        ShortIsLongest(group);
      }
      GroupAdded(validated, group, groups, i);
      validated := validated + [group];
    }
    assert groups[..|groups|] == groups;
  }

  lemma {:induction false} ShortIsLongest(g: seq<Byte>)
    requires Valid(g) && |g| <= MAX_OIDC_GROUP_NAME_LENGTH
    ensures IsLongest(g, g, MAX_OIDC_GROUP_NAME_LENGTH)
  {
  }

  /** A group that is not acceptable adds nothing. */
  lemma {:induction false} NextGroup(out: seq<seq<Byte>>, groups: seq<seq<Byte>>, i: nat)
    requires i < |groups|
    ensures !Acceptable(groups[i]) ==> (Sanitized(out, groups[..i + 1]) <==> Sanitized(out, groups[..i]))
  {
    assert groups[..i + 1][..i] == groups[..i] && groups[..i + 1][i] == groups[i];
  }

  /** An acceptable one adds its longest prefix. */
  lemma {:induction false} GroupAdded(out: seq<seq<Byte>>, t: seq<Byte>, groups: seq<seq<Byte>>, i: nat)
    requires i < |groups| && Acceptable(groups[i])
    requires Sanitized(out, groups[..i]) && IsLongest(t, groups[i], MAX_OIDC_GROUP_NAME_LENGTH)
    ensures Sanitized(out + [t], groups[..i + 1])
  {
    assert groups[..i + 1][..i] == groups[..i] && groups[..i + 1][i] == groups[i];
    assert (out + [t])[..|out|] == out && (out + [t])[|out|] == t;
  }

  method FindControl(s: seq<Byte>) returns (found: bool)
    requires Valid(s)
    ensures found <==> HasControl(s)
  {
    var rest := s;
    while rest != []
      invariant Valid(rest)
      invariant HasControl(s) <==> HasControl(rest)
      decreases |rest|
    {
      if IsControl(FirstRune(rest)) {
        assert Runes(rest)[0] == FirstRune(rest);
        return true;
      }
      assert Runes(rest) == [FirstRune(rest)] + Runes(rest[FirstLength(rest)..]);
      rest := rest[FirstLength(rest)..];
    }
    return false;
  }

  lemma {:induction false} LongestOfAcceptable(t: seq<Byte>, g: seq<Byte>)
    requires Acceptable(g) && IsLongest(t, g, MAX_OIDC_GROUP_NAME_LENGTH)
    ensures Clean(t)
  {
    LongestIsLong(t, g, MAX_OIDC_GROUP_NAME_LENGTH);
    assert t == g[..|t|];
    PrefixRunes(g, |t|);
  }

  /** Whatever comes in, at most 500 non-empty, valid names of at most 256 bytes without control characters
      come out. */
  lemma {:induction false} SanitizedIsClean(out: seq<seq<Byte>>, groups: seq<seq<Byte>>)
    requires Sanitized(out, groups)
    ensures |out| <= |groups| && forall g <- out :: Clean(g)
    decreases |groups|
  {
    if |groups| > 0 {
      var n := |groups| - 1;
      if Acceptable(groups[n]) {
        SanitizedIsClean(out[..|out| - 1], groups[..n]);
        LongestOfAcceptable(out[|out| - 1], groups[n]);
        assert out == out[..|out| - 1] + [out[|out| - 1]];
      } else {
        SanitizedIsClean(out, groups[..n]);
      }
    }
  }

  lemma {:induction false} CleanIsKept(g: seq<Byte>, t: seq<Byte>)
    requires Clean(g) && IsLongest(t, g, MAX_OIDC_GROUP_NAME_LENGTH)
    ensures t == g
  {
    assert g[..|g|] == g;
    assert !(|t| < |g|);
  }

  /** Clean names come out as they are. */
  lemma {:induction false} CleanUnchanged(out: seq<seq<Byte>>, groups: seq<seq<Byte>>)
    requires Sanitized(out, groups) && forall g <- groups :: Clean(g)
    ensures out == groups
    decreases |groups|
  {
    if |groups| > 0 {
      var n := |groups| - 1;
      assert groups[n] in groups;
      LastUnchanged(out, groups);
      CleanUnchanged(out[..|out| - 1], groups[..n]);
      SplitLast(out);
      SplitLast(groups);
    }
  }

  lemma {:induction false} LastUnchanged(out: seq<seq<Byte>>, groups: seq<seq<Byte>>)
    requires |groups| > 0 && Sanitized(out, groups) && Clean(groups[|groups| - 1])
    ensures |out| > 0 && out[|out| - 1] == groups[|groups| - 1] && Sanitized(out[..|out| - 1], groups[..|groups| - 1])
  {
    CleanIsKept(groups[|groups| - 1], out[|out| - 1]);
  }

  lemma {:induction false} SplitLast(list: seq<seq<Byte>>)
    requires |list| > 0
    ensures list == list[..|list| - 1] + [list[|list| - 1]]
  {
  }

  /** Sanitizing twice is sanitizing once. */
  lemma {:induction false} SanitizeIsIdempotent(groups: seq<seq<Byte>>, once: seq<seq<Byte>>, twice: seq<seq<Byte>>)
    requires Sanitized(once, FirstGroups(groups)) && Sanitized(twice, FirstGroups(once))
    ensures |once| <= MAX_OIDC_GROUPS && (forall g <- once :: Clean(g)) && twice == once
  {
    SanitizedIsClean(once, FirstGroups(groups));
    CleanUnchanged(twice, once);
  }

  // ---- what sanitizing does, group by group ----

  /** The first 500 groups are looked at. */
  lemma {:induction false} FirstGroupsExactly(groups: seq<seq<Byte>>)
    ensures FirstGroups(groups) == groups[..if |groups| <= 500 then |groups| else 500]
  {
  }

  /** One group: kept, cut to its longest valid prefix of at most 256 bytes, exactly when it is a non-empty valid
      name without characters U+0000 to U+001F and U+007F to U+009F. */
  lemma {:induction false} SanitizedOne(out: seq<seq<Byte>>, g: seq<Byte>)
    ensures Sanitized(out, [g]) <==>
      if g != [] && Valid(g) && OnlyVisible(Runes(g))
      then |out| == 1 && IsLongest(out[0], g, 256) else out == []
  {
    AcceptableExactly(g);
    assert [g][..0] == [];
    assert Sanitized([], []);
    assert |out| >= 1 ==> (out[..|out| - 1] == [] <==> |out| == 1);
  }

  lemma {:induction false} AcceptableExactly(g: seq<Byte>)
    ensures Acceptable(g) <==> g != [] && Valid(g) && OnlyVisible(Runes(g))
  {
    if g != [] && Valid(g) {
      NoControls(Runes(g));
    }
  }

  predicate OnlyVisible(runes: seq<nat>) { forall c <- runes :: 0x20 <= c < 0x7F || c > 0x9F }

  lemma {:induction false} NoControls(runes: seq<nat>)
    ensures AnyControl(runes) <==> !OnlyVisible(runes)
  {
    if !OnlyVisible(runes) {
      var c :| c in runes && !(0x20 <= c < 0x7F || c > 0x9F);
      assert IsControl(c);
    }
  }

  /** Groups are sanitized one by one, in order. */
  lemma {:induction false} SanitizedConcat(xs: seq<seq<Byte>>, ys: seq<seq<Byte>>, out: seq<seq<Byte>>, more: seq<seq<Byte>>)
    requires Sanitized(out, xs) && Sanitized(more, ys)
    ensures Sanitized(out + more, xs + ys)
    decreases |ys|
  {
    if ys == [] {
      assert xs + ys == xs && out + more == out;
    } else {
      var n := |ys| - 1;
      AppendLast(xs, ys);
      if Acceptable(ys[n]) {
        SanitizedConcat(xs, ys[..n], out, more[..|more| - 1]);
        AppendLast(out, more);
        OneMore(out + more[..|more| - 1], more[|more| - 1], xs + ys[..n], ys[n]);
      } else {
        SanitizedConcat(xs, ys[..n], out, more);
        OneSkipped(out + more, xs + ys[..n], ys[n]);
      }
    }
  }

  lemma {:induction false} AppendLast(a: seq<seq<Byte>>, b: seq<seq<Byte>>)
    requires |b| > 0
    ensures a + b == a + b[..|b| - 1] + [b[|b| - 1]]
  {
  }

  lemma {:induction false} OneMore(out: seq<seq<Byte>>, t: seq<Byte>, groups: seq<seq<Byte>>, g: seq<Byte>)
    requires Acceptable(g) && Sanitized(out, groups) && IsLongest(t, g, MAX_OIDC_GROUP_NAME_LENGTH)
    ensures Sanitized(out + [t], groups + [g])
  {
    assert (groups + [g])[..|groups|] == groups && (groups + [g])[..|groups| + 1] == groups + [g];
    GroupAdded(out, t, groups + [g], |groups|);
  }

  lemma {:induction false} OneSkipped(out: seq<seq<Byte>>, groups: seq<seq<Byte>>, g: seq<Byte>)
    requires !Acceptable(g) && Sanitized(out, groups)
    ensures Sanitized(out, groups + [g])
  {
    assert (groups + [g])[..|groups|] == groups && (groups + [g])[..|groups| + 1] == groups + [g];
    NextGroup(out, groups + [g], |groups|);
  }

  lemma {:induction false} LongestUnique(s: seq<Byte>, t: seq<Byte>, u: seq<Byte>, max: nat)
    requires IsLongest(t, s, max) && IsLongest(u, s, max)
    ensures t == u
  {
    assert t == s[..|t|] && u == s[..|u|];
  }

  /** And the outcome is determined. */
  lemma {:induction false} SanitizedUnique(groups: seq<seq<Byte>>, out: seq<seq<Byte>>, other: seq<seq<Byte>>)
    requires Sanitized(out, groups) && Sanitized(other, groups)
    ensures out == other
    decreases |groups|
  {
    if groups != [] {
      var n := |groups| - 1;
      if Acceptable(groups[n]) {
        SanitizedUnique(groups[..n], out[..|out| - 1], other[..|other| - 1]);
        LongestUnique(groups[n], out[|out| - 1], other[|other| - 1], MAX_OIDC_GROUP_NAME_LENGTH);
        SplitLast(out);
        SplitLast(other);
      } else {
        SanitizedUnique(groups[..n], out, other);
      }
    }
  }
}
