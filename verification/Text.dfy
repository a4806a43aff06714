/** The few operations of Go's `strings` package that the modelled code relies on.
    A string is a sequence of bytes, written as characters. */
module Text {

  predicate HasPrefix(s: string, prefix: string) {
    prefix <= s
  }

  predicate HasSuffix(s: string, suffix: string) {
    |suffix| <= |s| && s[|s| - |suffix|..] == suffix
  }

  lemma SuffixOfConcat(a: string, b: string)
    ensures HasSuffix(a + b, b)
  {
    assert (a + b)[|a|..] == b;
  }

  lemma {:induction false} StripPrefix(head: string, s: string, prefix: string)
    requires HasPrefix(head + s, head + prefix)
    ensures HasPrefix(s, prefix) && s == prefix + s[|prefix|..]
  {
    assert s == (head + s)[|head|..];
    assert prefix == (head + prefix)[|head|..];
  }

  predicate Free(s: string, c: char) {
    c !in s
  }

  predicate OccursAt(s: string, sub: string, k: nat) {
    k + |sub| <= |s| && sub <= s[k..]
  }

  /** The leftmost occurrence of `sub` at or after `from`, or -1: strings.Index(s[from:], sub),
      counted from the start of `s`. */
  function IndexFrom(s: string, sub: string, from: nat): (k: int)
    ensures k < 0 ==> k == -1 && forall j: nat :: from <= j ==> !OccursAt(s, sub, j)
    ensures 0 <= k ==> from <= k && OccursAt(s, sub, k) && forall j: nat :: from <= j < k ==> !OccursAt(s, sub, j)
    decreases |s| - from
  {
    if from + |sub| > |s| then -1
    else if OccursAt(s, sub, from) then from
    else IndexFrom(s, sub, from + 1)
  }

  /** strings.Split with a one-byte separator. */
  function Split(s: string, sep: char): (parts: seq<string>)
    ensures |parts| >= 1
    ensures forall part <- parts :: Free(part, sep)
  {
    if s == "" then [""]
    else
      var rest := Split(s[1..], sep);
      if s[0] == sep then [""] + rest
      else
        assert Free(rest[0], sep) && Free([s[0]] + rest[0], sep);
        [[s[0]] + rest[0]] + rest[1..]
  }

  /** strings.Join with a one-byte separator. */
  function Join(parts: seq<string>, sep: char): (s: string) {
    if |parts| == 0 then ""
    else if |parts| == 1 then parts[0]
    else parts[0] + [sep] + Join(parts[1..], sep)
  }

  lemma {:induction false} JoinSplit(s: string, sep: char)
    ensures Join(Split(s, sep), sep) == s
  {
    if s != "" {
      JoinSplit(s[1..], sep);
      var rest := Split(s[1..], sep);
      if s[0] == sep {
        assert ([""] + rest)[1..] == rest;
      } else {
        var parts := [[s[0]] + rest[0]] + rest[1..];
        assert parts[1..] == rest[1..];
        if |rest| > 1 {
          assert Join(parts, sep) == [s[0]] + (rest[0] + [sep] + Join(rest[1..], sep));
        }
      }
    }
  }

  lemma {:induction false} SplitFree(s: string, sep: char)
    requires Free(s, sep)
    ensures Split(s, sep) == [s]
  {
    if s != "" {
      SplitFree(s[1..], sep);
      assert s[0] in s && s == [s[0]] + s[1..];
    }
  }

  /** Splitting peels off everything up to the first separator. */
  lemma {:induction false} SplitFirst(head: string, sep: char, tail: string)
    requires Free(head, sep)
    ensures Split(head + [sep] + tail, sep) == [head] + Split(tail, sep)
  {
    var s := head + [sep] + tail;
    if head == "" {
      assert s[1..] == tail;
    } else {
      SplitFirst(head[1..], sep, tail);
      assert s[1..] == head[1..] + [sep] + tail;
      assert s[0] == head[0] && head[0] in head;
      assert head == [head[0]] + head[1..];
    }
  }

  /** Two cuts at the first separator of one string are the same cut. */
  lemma {:induction false} FirstCutUnique(a: string, b: string, sep: char, c: string, d: string)
    requires Free(a, sep) && Free(c, sep)
    requires a + [sep] + b == c + [sep] + d
    ensures a == c && b == d
  {
    SplitFirst(a, sep, b);
    SplitFirst(c, sep, d);
    assert a == Split(a + [sep] + b, sep)[0] == c;
    assert b == (a + [sep] + b)[|a| + 1..] == d;
  }

  function Count(s: string, c: char): (n: nat) {
    if s == "" then 0 else (if s[0] == c then 1 else 0) + Count(s[1..], c)
  }

  lemma {:induction false} CountConcat(a: string, b: string, c: char)
    ensures Count(a + b, c) == Count(a, c) + Count(b, c)
  {
    if a == "" {
      assert a + b == b;
    } else {
      CountConcat(a[1..], b, c);
      assert (a + b)[1..] == a[1..] + b;
    }
  }

  lemma {:induction false} CountFree(s: string, c: char)
    ensures Free(s, c) <==> Count(s, c) == 0
  {
    if s != "" {
      CountFree(s[1..], c);
      assert s == [s[0]] + s[1..];
    }
  }

  /** A list function that appends, for each further element, something that depends on that element alone. */
  ghost predicate Appends(f: seq<string> -> seq<string>, last: string -> seq<string>) {
    f([]) == [] && forall names, n :: f(names + [n]) == f(names) + last(n)
  }

  lemma {:induction false} AppendsDistributes(f: seq<string> -> seq<string>, last: string -> seq<string>, xs: seq<string>, ys: seq<string>)
    requires Appends(f, last)
    ensures f(xs + ys) == f(xs) + f(ys)
    decreases |ys|
  {
    if ys == [] {
      assert xs + ys == xs;
    } else {
      var front, y := ys[..|ys| - 1], ys[|ys| - 1];
      AppendsDistributes(f, last, xs, front);
      assert xs + ys == (xs + front) + [y] && ys == front + [y];
    }
  }

  lemma {:induction false} AppendsCounts(f: seq<string> -> seq<string>, last: string -> seq<string>, keeps: string -> bool, names: seq<string>, n: string)
    requires Appends(f, last) && forall m :: last(m) == if keeps(m) then [m] else []
    ensures multiset(f(names))[n] == if keeps(n) then multiset(names)[n] else 0
    decreases |names|
  {
    if names != [] {
      var front, y := names[..|names| - 1], names[|names| - 1];
      AppendsCounts(f, last, keeps, front, n);
      assert names == front + [y];
    }
  }
}
