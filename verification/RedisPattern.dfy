/** Targeted invalidation in the Redis-backed cache: the keys to delete are found with a glob pattern made of
    the user's id as it is. When does the pattern select the user's keys and no others? */
module RedisPattern {
  import opened Text
  import opened Wrappers
  import opened AuthzCache

  const KEY_PREFIX := "authz:cache:"

  /** How a bracket expression is read: how much of the text after `[` it takes, and what it matches. */
  datatype Class = Class(length: nat, has: char -> bool)

  /** Any reading of brackets will do that takes at least one byte where there is one. */
  type ClassReader = string -> Class

  ghost predicate Reads(cls: ClassReader) {
    forall text | text != "" :: cls(text).length >= 1
  }

  function Drop(s: string, k: nat): string {
    if k <= |s| then s[k..] else ""
  }

  /** The glob patterns of KEYS and SCAN MATCH. */
  predicate Matches(cls: ClassReader, p: string, s: string)
    decreases |p|, |s|
  {
    if p == "" then s == ""
    else if p[0] == '*' then Matches(cls, p[1..], s) || (s != "" && Matches(cls, p, s[1..]))
    else if s == "" then false
    else if p[0] == '?' then Matches(cls, p[1..], s[1..])
    else if p[0] == '[' then cls(p[1..]).has(s[0]) && Matches(cls, Drop(p[1..], cls(p[1..]).length), s[1..])
    else if p[0] == '\\' && |p| >= 2 then p[1] == s[0] && Matches(cls, p[2..], s[1..])
    else p[0] == s[0] && Matches(cls, p[1..], s[1..])
  }

  predicate Meta(c: char) { c == '*' || c == '?' || c == '[' || c == '\\' }

  predicate Plain(s: string) {
    forall c | c in s :: !Meta(c)
  }

  function UserPattern(user: string): string { user + "\0*" }

  /** Below the common prefix: the pattern selects the keys of `user` and no others, among NUL-free requests. */
  ghost predicate SelectsOnly(cls: ClassReader, pattern: string, user: string) {
    forall u, obj, act | AuthzCache.Clean(u, obj, act) :: Matches(cls, pattern, CacheKey(u, obj, act)) <==> u == user
  }

  // ---- plain ids ----

  lemma {:induction false} PlainHead(cls: ClassReader, head: string, rest: string, s: string)
    requires Plain(head)
    ensures Matches(cls, head + rest, s) <==> HasPrefix(s, head) && Matches(cls, rest, s[|head|..])
  {
    if head == "" {
      assert head + rest == rest && s[0..] == s;
    } else {
      assert (head + rest)[1..] == head[1..] + rest && head[0] in head;
      if s != "" && s[0] == head[0] {
        PlainHead(cls, head[1..], rest, s[1..]);
        assert HasPrefix(s, head) <==> HasPrefix(s[1..], head[1..]);
        assert HasPrefix(s, head) ==> s[|head|..] == s[1..][|head| - 1..];
      }
    }
  }

  lemma {:induction false} StarMatchesAll(cls: ClassReader, s: string)
    ensures Matches(cls, "*", s)
  {
    if s != "" {
      StarMatchesAll(cls, s[1..]);
    }
  }

  lemma {:induction false} PlainSelects(cls: ClassReader, user: string)
    requires Plain(user) && Free(user, NUL)
    ensures SelectsOnly(cls, UserPattern(user), user)
  {
    forall u, obj, act | AuthzCache.Clean(u, obj, act)
      ensures Matches(cls, UserPattern(user), CacheKey(u, obj, act)) <==> u == user
    {
      var key := CacheKey(u, obj, act);
      assert UserPattern(user) == (user + [NUL]) + "*";
      PlainHead(cls, user + [NUL], "*", key);
      StarMatchesAll(cls, key[if |user| + 1 <= |key| then |user| + 1 else 0..]);
      PrefixSelectsUser(u, obj, act, user);
    }
  }

  // ---- ids with metacharacters ----

  lemma {:induction false} KeyOfLonger(c: char, u: string, obj: string, act: string)
    requires c != NUL && AuthzCache.Clean(u, obj, act)
    ensures AuthzCache.Clean([c] + u, obj, act)
    ensures CacheKey([c] + u, obj, act)[0] == c && CacheKey([c] + u, obj, act)[1..] == CacheKey(u, obj, act)
  {
    assert CacheKey([c] + u, obj, act) == [c] + CacheKey(u, obj, act);
  }

  /** The key of a user's request for nothing. */
  function KeyOf(user: string): string { CacheKey(user, "", "") }

  lemma {:induction false} KeyTail(user: string)
    requires user != "" && Free(user, NUL)
    ensures user[0] != NUL && Free(user[1..], NUL) && KeyOf(user)[0] == user[0] && KeyOf(user)[1..] == KeyOf(user[1..])
    ensures user == [user[0]] + user[1..]
  {
    assert user == [user[0]] + user[1..] && user[0] in user;
    KeyOfLonger(user[0], user[1..], "", "");
  }

  lemma {:induction false} SelectsOwn(cls: ClassReader, pattern: string, user: string)
    requires SelectsOnly(cls, pattern, user) && Free(user, NUL)
    ensures Matches(cls, pattern, KeyOf(user))
    ensures forall other | Free(other, NUL) && other != user :: !Matches(cls, pattern, KeyOf(other))
  {
    assert AuthzCache.Clean(user, "", "");
    forall other | Free(other, NUL) && other != user ensures !Matches(cls, pattern, KeyOf(other)) {
      assert AuthzCache.Clean(other, "", "");
    }
  }

  /** A pattern whose first step takes exactly the byte `c` selects a user only by selecting the rest of the id. */
  lemma {:induction false} AfterFirstByte(cls: ClassReader, pattern: string, rest: string, user: string)
    requires SelectsOnly(cls, pattern, user) && user != "" && Free(user, NUL)
    requires forall s | s != "" && s[0] == user[0] :: Matches(cls, pattern, s) <==> Matches(cls, rest, s[1..])
    ensures SelectsOnly(cls, rest, user[1..])
  {
    KeyTail(user);
    forall u, obj, act | AuthzCache.Clean(u, obj, act)
      ensures Matches(cls, rest, CacheKey(u, obj, act)) <==> u == user[1..]
    {
      KeyOfLonger(user[0], u, obj, act);
      assert [user[0]] + u == user <==> u == user[1..];
    }
  }

  /** A leading `*` that selects an id also selects longer ones, */
  lemma {:induction false} StarSelectsMore(cls: ClassReader, r: string, user: string)
    requires r != "" && r[0] == '*' && Free(user, NUL)
    ensures Free("x" + user, NUL) && "x" + user != user
    ensures Matches(cls, UserPattern(r), KeyOf(user)) ==> Matches(cls, UserPattern(r), KeyOf("x" + user))
  {
    KeyOfLonger('x', user, "", "");
    assert KeyOf("x" + user)[1..] == KeyOf(user);
    assert |"x" + user| != |user|;
  }

  /** and a leading `?` ids with another first byte. */
  lemma {:induction false} AnySelectsMore(cls: ClassReader, r: string, user: string) returns (other: string)
    requires r != "" && r[0] == '?' && user != "" && Free(user, NUL)
    ensures Free(other, NUL) && other != user
    ensures Matches(cls, UserPattern(r), KeyOf(user)) ==> Matches(cls, UserPattern(r), KeyOf(other))
  {
    KeyTail(user);
    var c := if user[0] == 'x' then 'y' else 'x';
    other := [c] + user[1..];
    KeyOfLonger(c, user[1..], "", "");
    assert other[0] != user[0];
  }

  /** A backslash takes two bytes of the pattern for one of the key: what is left has to select a longer id. */
  lemma {:induction false} AfterEscape(cls: ClassReader, r: string, user: string)
    requires r != "" && r[0] == '\\' && user != "" && Free(user, NUL) && SelectsOnly(cls, UserPattern(r), user)
    ensures |r| >= 2 && SelectsOnly(cls, UserPattern(r[2..]), user[1..])
  {
    SelectsOwn(cls, UserPattern(r), user);
    KeyTail(user);
    var p := UserPattern(r);
    assert p[1] == user[0];
    assert |r| >= 2;
    assert p[2..] == UserPattern(r[2..]);
    AfterFirstByte(cls, p, UserPattern(r[2..]), user);
  }

  lemma {:induction false} DropPattern(r: string, k: nat)
    requires r != ""
    ensures Drop(UserPattern(r)[1..], k) == if k < |r| then UserPattern(r[1 + k..]) else if k == |r| then "*" else ""
  {
    var text := UserPattern(r)[1..];
    assert text == r[1..] + "\0*" && |text| == |r| + 1;
    if k < |r| {
      assert text[k..] == r[1 + k..] + "\0*";
    } else if k == |r| {
      assert text[k..] == "*";
    }
  }

  lemma {:induction false} StarIsTooMuch(cls: ClassReader, user: string)
    requires Free(user, NUL)
    ensures !SelectsOnly(cls, "*", user) && !SelectsOnly(cls, "", user)
  {
    var other := "x" + user;
    assert |other| != |user| && AuthzCache.Clean(other, "", "") && AuthzCache.Clean(user, "", "");
    StarMatchesAll(cls, CacheKey(other, "", ""));
    assert CacheKey(user, "", "") != "";
  }

  /** And so does a bracket expression. */
  lemma {:induction false} AfterBracket(cls: ClassReader, r: string, user: string) returns (k: nat)
    requires Reads(cls) && r != "" && r[0] == '[' && user != "" && Free(user, NUL) && SelectsOnly(cls, UserPattern(r), user)
    ensures 1 <= k < |r| && SelectsOnly(cls, UserPattern(r[1 + k..]), user[1..])
  {
    SelectsOwn(cls, UserPattern(r), user);
    KeyTail(user);
    var p := UserPattern(r);
    assert p[1..] != "";
    k := cls(p[1..]).length;
    AfterFirstByte(cls, p, Drop(p[1..], k), user);
    DropPattern(r, k);
    StarIsTooMuch(cls, user[1..]);
  }

  lemma {:induction false} OnlyPlainSelects(cls: ClassReader, r: string, user: string)
    requires Reads(cls) && |user| >= |r| && Free(r, NUL) && Free(user, NUL) && SelectsOnly(cls, UserPattern(r), user)
    ensures Plain(r) && r == user
    decreases |r|
  {
    SelectsOwn(cls, UserPattern(r), user);
    if r == "" {
      assert KeyOf(user)[0] == NUL;
      FirstByteOfKey(user);
    } else if r[0] == '*' {
      StarSelectsMore(cls, r, user);
    } else if r[0] == '?' {
      var other := AnySelectsMore(cls, r, user);
    } else if r[0] == '\\' {
      AfterEscape(cls, r, user);
      OnlyPlainSelects(cls, r[2..], user[1..]);
    } else if r[0] == '[' {
      var k := AfterBracket(cls, r, user);
      OnlyPlainSelects(cls, r[1 + k..], user[1..]);
    } else {
      KeyTail(user);
      assert UserPattern(r)[1..] == UserPattern(r[1..]);
      AfterFirstByte(cls, UserPattern(r), UserPattern(r[1..]), user);
      OnlyPlainSelects(cls, r[1..], user[1..]);
      assert r == [r[0]] + r[1..];
    }
  }

  lemma {:induction false} FirstByteOfKey(user: string)
    requires Free(user, NUL)
    ensures KeyOf(user)[0] == NUL ==> user == ""
  {
    if user != "" {
      KeyTail(user);
    }
  }

  /** Targeted invalidation in Redis selects exactly the user's keys, among NUL-free requests, if and only if the
      id has none of the characters that mean something in a pattern. */
  lemma {:induction false} RedisPrefixSelectsExactly(cls: ClassReader, user: string)
    requires Reads(cls) && Free(user, NUL)
    ensures (forall u, obj, act | AuthzCache.Clean(u, obj, act) ::
               Matches(cls, KEY_PREFIX + UserPattern(user), KEY_PREFIX + CacheKey(u, obj, act)) <==> u == user)
            <==> Plain(user)
  {
    forall u, obj, act
      ensures Matches(cls, KEY_PREFIX + UserPattern(user), KEY_PREFIX + CacheKey(u, obj, act))
              <==> Matches(cls, UserPattern(user), CacheKey(u, obj, act))
    {
      PlainHead(cls, KEY_PREFIX, UserPattern(user), KEY_PREFIX + CacheKey(u, obj, act));
      assert (KEY_PREFIX + CacheKey(u, obj, act))[|KEY_PREFIX|..] == CacheKey(u, obj, act);
    }
    if Plain(user) {
      PlainSelects(cls, user);
    } else if SelectsOnly(cls, UserPattern(user), user) {
      OnlyPlainSelects(cls, user, user);
    }
  }

  // ---- the deleting loop ----

  /** One page of a SCAN with the pattern. */
  datatype Page = Keys(keys: seq<string>) | Failed

  predicate OnPage(pages: seq<Page>, key: string) {
    exists p | p in pages :: p.Keys? && key in p.keys
  }

  function Total(pages: seq<Page>): nat
    decreases |pages|
  {
    if pages == [] then 0
    else
      var n := |pages| - 1;
      Total(pages[..n]) + (if pages[n].Keys? then |pages[n].keys| else 0)
  }

  /** Deletes what the scan lists, page by page, until a page fails; counts the keys listed. */
  method InvalidateByPrefix(entries: map<string, bool>, pages: seq<Page>) returns (left: map<string, bool>, deleted: nat, done: bool)
    ensures done <==> Failed !in pages
    ensures forall k | k in left :: k in entries && left[k] == entries[k]
    ensures forall k | k in entries && k !in left :: OnPage(pages, k)
    ensures done ==> deleted == Total(pages)
    ensures done ==> left == map k | k in entries && !OnPage(pages, k) :: entries[k]
  {
    left, deleted := entries, 0;
    for i := 0 to |pages|
      invariant Failed !in pages[..i] && deleted == Total(pages[..i])
      invariant left == map k | k in entries && !OnPage(pages[..i], k) :: entries[k]
    {
      assert pages[..i + 1] == pages[..i] + [pages[i]];
      forall k ensures OnPage(pages[..i + 1], k) <==> OnPage(pages[..i], k) || (pages[i].Keys? && k in pages[i].keys) {
        PageMore(pages[..i], pages[i], k);
      }
      if pages[i].Failed? {
        assert Failed in pages;
        forall k | OnPage(pages[..i], k) ensures OnPage(pages, k) {
          OnMorePages(pages, i, k);
        }
        return left, deleted, false;
      }
      left := left - (set k | k in pages[i].keys);
      deleted := deleted + |pages[i].keys|;
    }
    assert pages[..|pages|] == pages;
    done := true;
  }

  lemma {:induction false} PageMore(pages: seq<Page>, page: Page, k: string)
    ensures OnPage(pages + [page], k) <==> OnPage(pages, k) || (page.Keys? && k in page.keys)
  {
    assert page in pages + [page];
    assert forall p | p in pages :: p in pages + [page];
  }

  lemma {:induction false} OnMorePages(pages: seq<Page>, i: nat, k: string)
    requires i <= |pages| && OnPage(pages[..i], k)
    ensures OnPage(pages, k)
  {
    var p :| p in pages[..i] && p.Keys? && k in p.keys;
    assert p in pages;
  }
}
