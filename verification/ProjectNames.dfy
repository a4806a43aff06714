/** Project names: the identifiers generated from display names are valid project names, and valid project
    names are harmless in policies. */
module ProjectNames {
  import opened Text
  import opened Policies
  import opened Tenancy

  const MAX_SLUG_LENGTH := 50

  predicate LowerAlnum(c: char) {
    'a' <= c <= 'z' || '0' <= c <= '9'
  }

  predicate NameChar(c: char) {
    LowerAlnum(c) || c == '-'
  }

  predicate NameText(s: string) {
    forall c | c in s :: NameChar(c)
  }

  /** ^[a-z0-9]([-a-z0-9]*[a-z0-9])?$, at most 253 characters. */
  predicate ValidProjectName(s: string) {
    0 < |s| <= 253 && NameText(s) && LowerAlnum(s[0]) && LowerAlnum(s[|s| - 1])
  }

  predicate DoubleAt(s: string, k: int) {
    0 <= k && k + 1 < |s| && s[k] == '-' && s[k + 1] == '-'
  }

  predicate HasDouble(s: string) {
    exists k: int | 0 <= k < |s| :: DoubleAt(s, k)
  }

  function Mapped(s: string): (r: string)
    ensures NameText(r)
  {
    if s == "" then ""
    else
      var rest := Mapped(s[1..]);
      if LowerAlnum(s[0]) then [s[0]] + rest
      else if s[0] == ' ' || s[0] == '-' || s[0] == '_' then ['-'] + rest
      else rest
  }

  /** strings.ReplaceAll(s, "--", "-"): pairs from the left. */
  function ReplaceDoubles(s: string): (r: string)
    ensures |r| <= |s| && (NameText(s) ==> NameText(r))
  {
    if |s| < 2 then s
    else if s[0] == '-' && s[1] == '-' then ['-'] + ReplaceDoubles(s[2..])
    else [s[0]] + ReplaceDoubles(s[1..])
  }

  /** Every run of hyphens becomes one. */
  function Collapse(s: string): (r: string)
    ensures NameText(s) ==> NameText(r)
  {
    if |s| < 2 then s
    else if s[0] == '-' && s[1] == '-' then Collapse(s[1..])
    else [s[0]] + Collapse(s[1..])
  }

  lemma {:induction false} DoubleInTail(s: string)
    requires HasDouble(s) && !DoubleAt(s, 0)
    ensures HasDouble(s[1..])
  {
    var k :| 0 <= k < |s| && DoubleAt(s, k);
    assert DoubleAt(s[1..], k - 1);
  }

  lemma {:induction false} ReplacingShortens(s: string)
    requires HasDouble(s)
    ensures |ReplaceDoubles(s)| < |s|
  {
    if !DoubleAt(s, 0) {
      DoubleInTail(s);
      ReplacingShortens(s[1..]);
    }
  }

  lemma {:induction false} CollapseBehind(c: char, t: string)
    ensures Collapse([c] + ReplaceDoubles(t)) == Collapse([c] + t)
    decreases |t|
  {
    if |t| >= 2 {
      var double := t[0] == '-' && t[1] == '-';
      var u := if double then t[2..] else t[1..];
      var r := ReplaceDoubles(u);
      CollapseBehind(t[0], u);
      assert ([c] + ([t[0]] + r))[1..] == [t[0]] + r;
      assert ([c] + t)[1..] == t && t == [t[0]] + t[1..];
      if double {
        assert ([t[0]] + u) == t[1..];
      }
    }
  }

  lemma {:induction false} CollapseReplaced(s: string)
    ensures Collapse(ReplaceDoubles(s)) == Collapse(s)
  {
    if |s| >= 2 {
      if s[0] == '-' && s[1] == '-' {
        CollapseBehind('-', s[2..]);
        assert ['-'] + s[2..] == s[1..];
      } else {
        CollapseBehind(s[0], s[1..]);
        assert [s[0]] + s[1..] == s;
      }
    }
  }

  lemma {:induction false} CollapsedAlready(s: string)
    requires !HasDouble(s)
    ensures Collapse(s) == s
  {
    if |s| >= 2 {
      assert !DoubleAt(s, 0);
      forall k: int | 0 <= k < |s| - 1 ensures !DoubleAt(s[1..], k) {
        assert !DoubleAt(s, k + 1);
      }
      CollapsedAlready(s[1..]);
    }
  }

  /** The loop that replaces doubled hyphens until there are none collapses every run. */
  method CollapseHyphens(s: string) returns (slug: string)
    requires NameText(s)
    ensures slug == Collapse(s) && !HasDouble(slug) && NameText(slug)
  {
    slug := s;
    while HasDouble(slug)
      invariant Collapse(slug) == Collapse(s) && NameText(slug)
      decreases |slug|
    {
      ReplacingShortens(slug);
      CollapseReplaced(slug);
      slug := ReplaceDoubles(slug);
    }
    CollapsedAlready(slug);
  }

  /** strings.Trim(s, "-"). */
  function TrimHyphens(s: string): (r: string)
    ensures |r| <= |s| && (NameText(s) ==> NameText(r)) && (!HasDouble(s) ==> !HasDouble(r))
    ensures r == "" || (r[0] != '-' && r[|r| - 1] != '-')
  {
    if s == "" then ""
    else if s[0] == '-' then
      assert HasDouble(s[1..]) ==> HasDouble(s) by { PartDoubles(s, 1, |s|); }
      TrimHyphens(s[1..])
    else if s[|s| - 1] == '-' then
      assert HasDouble(s[..|s| - 1]) ==> HasDouble(s) by { PartDoubles(s, 0, |s| - 1); }
      TrimHyphens(s[..|s| - 1])
    else s
  }

  lemma {:induction false} PartDoubles(s: string, from: nat, to: nat)
    requires from <= to <= |s|
    ensures HasDouble(s[from..to]) ==> HasDouble(s)
    ensures s[from..|s|] == s[from..] && s[0..to] == s[..to]
  {
    if HasDouble(s[from..to]) {
      var k :| 0 <= k < to - from && DoubleAt(s[from..to], k);
      assert DoubleAt(s, k + from);
    }
  }

  function Slug(normalized: string): (slug: string) {
    var trimmed := TrimHyphens(Collapse(Mapped(normalized)));
    if |trimmed| > MAX_SLUG_LENGTH then TrimHyphens(trimmed[..MAX_SLUG_LENGTH]) else trimmed
  }

  /** `normalized` is the lower-cased, trimmed display name and `hash` the first 8 hex digits of its SHA-256.
      Whatever the display name, the result is a valid project name of at most 59 characters that ends in
      the hash and has no doubled hyphen. */
  method GenerateProjectId(normalized: string, hash: string) returns (id: string)
    requires |hash| == 8 && forall c | c in hash :: LowerAlnum(c)
    ensures id == if Slug(normalized) == "" then hash else Slug(normalized) + "-" + hash
    ensures ValidProjectName(id) && |id| <= 59 && HasSuffix(id, hash) && !HasDouble(id)
  {
    var slug := CollapseHyphens(Mapped(normalized));
    slug := TrimHyphens(slug);
    if |slug| > MAX_SLUG_LENGTH {
      PartDoubles(slug, 0, MAX_SLUG_LENGTH);
      slug := slug[..MAX_SLUG_LENGTH];
      slug := TrimHyphens(slug);
    }
    NoDoubleWithHash(slug, hash);
    if slug == "" {
      return hash;
    }
    id := slug + "-" + hash;
    SuffixOfConcat(slug + "-", hash);
    assert slug[0] in slug && hash[7] in hash;
    assert id[0] == slug[0] && id[|id| - 1] == hash[7];
  }

  lemma {:induction false} NoDoubleWithHash(slug: string, hash: string)
    requires !HasDouble(slug) && (slug != "" ==> slug[|slug| - 1] != '-') && forall c | c in hash :: LowerAlnum(c)
    ensures !HasDouble(hash) && !HasDouble(slug + "-" + hash) && HasSuffix(hash, hash)
  {
    forall k: int | 0 <= k < |hash| ensures !DoubleAt(hash, k) {
      assert hash[k] in hash;
    }
    var id := slug + "-" + hash;
    forall k: int | 0 <= k < |id| ensures !DoubleAt(id, k) {
      if k < |slug| {
        assert !DoubleAt(slug, k);
      } else if k > |slug| {
        assert id[k] == hash[k - |slug| - 1] && id[k] in hash;
      } else if k + 1 < |id| {
        assert id[k + 1] == hash[0] && hash[0] in hash;
      }
    }
  }

  /** A valid project name has none of the characters that mean something in policies or patterns, so what
      is proved about tame names, such as tenant isolation, holds of every validated project. */
  lemma {:induction false} ValidNamesAreTame(name: string)
    requires ValidProjectName(name)
    ensures TameName(name) && Free(name, ':') && Free(name, '/') && Free(name, '\0')
  {
  }

  // ---- what a slug keeps ----

  /** Letters and digits stay, separators become hyphens, everything else goes, character by character. */
  lemma {:induction false} MappedExactly(a: string, b: string, c: char)
    ensures Mapped(a + b) == Mapped(a) + Mapped(b)
    ensures Mapped([c]) == if 'a' <= c <= 'z' || '0' <= c <= '9' then [c]
                           else if c == ' ' || c == '-' || c == '_' then "-" else ""
  {
    assert [c][1..] == "";
    if a == "" {
      assert a + b == b;
    } else {
      MappedExactly(a[1..], b, c);
      assert (a + b)[1..] == a[1..] + b;
    }
  }

  function Letters(s: string): string {
    if s == "" then "" else (if LowerAlnum(s[0]) then [s[0]] else "") + Letters(s[1..])
  }

  lemma {:induction false} LettersCons(c: char, s: string)
    ensures Letters([c] + s) == (if LowerAlnum(c) then [c] else "") + Letters(s)
  {
    assert ([c] + s)[1..] == s;
  }

  lemma {:induction false} LettersConcat(a: string, b: string)
    ensures Letters(a + b) == Letters(a) + Letters(b)
  {
    if a == "" {
      assert a + b == b;
    } else {
      LettersConcat(a[1..], b);
      assert (a + b)[1..] == a[1..] + b;
    }
  }

  lemma {:induction false} MappedKeepsLetters(s: string)
    ensures Letters(Mapped(s)) == Letters(s)
  {
    if s != "" {
      MappedKeepsLetters(s[1..]);
      LettersCons(s[0], Mapped(s[1..]));
      LettersCons('-', Mapped(s[1..]));
    }
  }

  lemma {:induction false} CollapseKeepsLetters(s: string)
    ensures Letters(Collapse(s)) == Letters(s)
  {
    if |s| >= 2 {
      CollapseKeepsLetters(s[1..]);
      LettersCons(s[0], Collapse(s[1..]));
    }
  }

  lemma {:induction false} TrimKeepsLetters(s: string)
    ensures Letters(TrimHyphens(s)) == Letters(s)
  {
    if s != "" && s[0] == '-' {
      TrimKeepsLetters(s[1..]);
    } else if s != "" && s[|s| - 1] == '-' {
      TrimKeepsLetters(s[..|s| - 1]);
      assert s == s[..|s| - 1] + "-";
      LettersConcat(s[..|s| - 1], "-");
    }
  }

  /** A slug keeps the letters and digits of the name in order: all of them, unless it had to be cut. */
  lemma {:induction false} SlugKeepsLetters(normalized: string)
    ensures var whole := TrimHyphens(Collapse(Mapped(normalized)));
            && Letters(Slug(normalized)) <= Letters(normalized)
            && (|whole| <= 50 ==> Slug(normalized) == whole && Letters(Slug(normalized)) == Letters(normalized))
  {
    var whole := TrimHyphens(Collapse(Mapped(normalized)));
    MappedKeepsLetters(normalized);
    CollapseKeepsLetters(Mapped(normalized));
    TrimKeepsLetters(Collapse(Mapped(normalized)));
    if |whole| > 50 {
      TrimKeepsLetters(whole[..50]);
      LettersConcat(whole[..50], whole[50..]);
      assert whole == whole[..50] + whole[50..];
    }
  }

  /** A tidy name of at most 50 characters is its own slug. */
  lemma {:induction false} TidySlug(name: string)
    requires ValidProjectName(name) && !HasDouble(name) && |name| <= 50
    ensures Slug(name) == name
  {
    TidyMapped(name);
    CollapsedAlready(name);
  }

  lemma {:induction false} TidyMapped(name: string)
    requires NameText(name)
    ensures Mapped(name) == name
  {
    if name != "" {
      assert name[0] in name && forall c | c in name[1..] :: c in name;
      TidyMapped(name[1..]);
      assert name == [name[0]] + name[1..];
    }
  }
}
