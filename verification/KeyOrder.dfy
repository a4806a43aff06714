/** Map keys in byte order: a set of keys has exactly one sorted listing. */
module KeyOrder {

  predicate Less(a: string, b: string) {
    if b == "" then false
    else if a == "" then true
    else a[0] < b[0] || (a[0] == b[0] && Less(a[1..], b[1..]))
  }

  lemma {:induction false} LessTotal(a: string, b: string)
    ensures Less(a, b) || Less(b, a) || a == b
    ensures !(Less(a, b) && Less(b, a)) && !Less(a, a)
  {
    if a != "" && b != "" {
      LessTotal(a[1..], b[1..]);
      assert a == [a[0]] + a[1..] && b == [b[0]] + b[1..];
    }
    if a != "" {
      LessTotal(a[1..], a[1..]);
    }
  }

  lemma {:induction false} LessTransitive(a: string, b: string, c: string)
    requires Less(a, b) && Less(b, c)
    ensures Less(a, c)
  {
    if a != "" && a[0] == b[0] == c[0] {
      LessTransitive(a[1..], b[1..], c[1..]);
    }
  }

  predicate Sorted(keys: seq<string>) {
    forall i, j | 0 <= i < j < |keys| :: Less(keys[i], keys[j])
  }

  function Elements(keys: seq<string>): set<string> {
    set k | k in keys
  }

  /** A set of keys has only one sorted listing. */
  lemma {:induction false} SortedIsUnique(a: seq<string>, b: seq<string>)
    requires Sorted(a) && Sorted(b) && Elements(a) == Elements(b)
    ensures a == b
  {
    assert |a| > 0 ==> a[0] in Elements(b);
    assert |b| > 0 ==> b[0] in Elements(a);
    if |a| > 0 {
      SameFirst(a, b);
      TailElements(a);
      TailElements(b);
      SortedIsUnique(a[1..], b[1..]);
      assert a == [a[0]] + a[1..] && b == [b[0]] + b[1..];
    }
  }

  lemma {:induction false} SameFirst(a: seq<string>, b: seq<string>)
    requires Sorted(a) && Sorted(b) && Elements(a) == Elements(b) && |a| > 0 && |b| > 0
    ensures a[0] == b[0]
  {
    assert a[0] in Elements(b) && b[0] in Elements(a);
    var i :| 0 <= i < |b| && b[i] == a[0];
    var j :| 0 <= j < |a| && a[j] == b[0];
    LessTotal(a[0], b[0]);
  }

  lemma {:induction false} TailElements(a: seq<string>)
    requires Sorted(a) && |a| > 0
    ensures Elements(a[1..]) == Elements(a) - {a[0]} && Sorted(a[1..])
  {
    forall i | 0 < i < |a| ensures a[i] != a[0] {
      LessTotal(a[0], a[i]);
    }
    forall k | k in Elements(a) && k != a[0] ensures k in a[1..] {
      var i :| 0 <= i < |a| && a[i] == k;
      assert a[1..][i - 1] == k;
    }
  }

  /** Inserts a new key at its place. */
  function Insert(keys: seq<string>, k: string): (r: seq<string>) {
    if |keys| == 0 then [k]
    else if Less(k, keys[0]) then [k] + keys
    else [keys[0]] + Insert(keys[1..], k)
  }

  lemma {:induction false} InsertSorts(keys: seq<string>, k: string)
    requires Sorted(keys) && k !in keys
    ensures Sorted(Insert(keys, k)) && Elements(Insert(keys, k)) == Elements(keys) + {k}
  {
    if |keys| > 0 {
      LessTotal(k, keys[0]);
      if Less(k, keys[0]) {
        forall j | 0 <= j < |keys| ensures Less(k, keys[j]) {
          if j > 0 { LessTransitive(k, keys[0], keys[j]); }
        }
      } else {
        InsertSorts(keys[1..], k);
        var rest := Insert(keys[1..], k);
        forall j | 0 <= j < |rest| ensures Less(keys[0], rest[j]) {
          assert rest[j] in Elements(rest);
        }
        assert Elements([keys[0]] + rest) == {keys[0]} + Elements(rest);
        assert keys == [keys[0]] + keys[1..];
      }
    }
  }

  ghost function SortedKeys(s: set<string>): (keys: seq<string>)
    ensures Sorted(keys) && Elements(keys) == s
  {
    if s == {} then []
    else
      var k :| k in s;
      var rest := SortedKeys(s - {k});
      InsertSorts(rest, k);
      Insert(rest, k)
  }

  /** collection.SortedKeys: the keys are visited in whatever order the map yields. */
  method SortKeys(unsorted: set<string>) returns (keys: seq<string>)
    ensures keys == SortedKeys(unsorted)
  {
    var left := unsorted;
    keys := [];
    while left != {}
      invariant left <= unsorted
      invariant Sorted(keys) && Elements(keys) == unsorted - left
      decreases left
    {
      var k :| k in left;
      assert k !in Elements(keys);
      InsertSorts(keys, k);
      left := left - {k};
      keys := Insert(keys, k);
    }
    SortedIsUnique(keys, SortedKeys(unsorted));
  }
}
