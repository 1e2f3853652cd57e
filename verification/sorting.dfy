/** `Array.prototype.sort` with a comparator on string keys. The sort is
    stable, as ECMAScript requires; `localeCompare` is replaced by plain
    lexicographic order on characters. */
module Sorting {

  /** Lexicographic order on strings: `a` is a prefix of `b`, or the first
      differing character of `a` is smaller. */
  predicate LexLe(a: string, b: string)
    decreases |a|
  {
    |a| == 0 || (|b| > 0 && (a[0] < b[0] || (a[0] == b[0] && LexLe(a[1..], b[1..]))))
  }

  lemma {:induction false} LexLeTotal(a: string, b: string)
    ensures LexLe(a, b) || LexLe(b, a)
    decreases |a|
  {
    if |a| > 0 && |b| > 0 && a[0] == b[0] {
      LexLeTotal(a[1..], b[1..]);
    }
  }

  lemma {:induction false} LexLeTransitive(a: string, b: string, c: string)
    requires LexLe(a, b) && LexLe(b, c)
    ensures LexLe(a, c)
    decreases |a|
  {
    if |a| > 0 && a[0] == b[0] && b[0] == c[0] {
      LexLeTransitive(a[1..], b[1..], c[1..]);
    }
  }

  lemma {:induction false} LexLeAntisymmetric(a: string, b: string)
    requires LexLe(a, b) && LexLe(b, a)
    ensures a == b
    decreases |a|
  {
    if |a| > 0 {
      LexLeAntisymmetric(a[1..], b[1..]);
      assert a == [a[0]] + a[1..] && b == [b[0]] + b[1..];
    }
  }

  predicate SortedBy<T>(s: seq<T>, key: T -> string) {
    forall i, j :: 0 <= i < j < |s| ==> LexLe(key(s[i]), key(s[j]))
  }

  /** Puts `x` in front of the first element whose key is not smaller. */
  function Insert<T(==)>(x: T, s: seq<T>, key: T -> string): (r: seq<T>)
    requires SortedBy(s, key)
    ensures |r| == |s| + 1
    ensures multiset(r) == multiset(s) + multiset{x}
    ensures SortedBy(r, key)
    decreases |s|
  {
    if |s| == 0 then [x]
    else if LexLe(key(x), key(s[0])) then
      InsertFront(x, s, key);
      [x] + s
    else
      LexLeTotal(key(x), key(s[0]));
      var rest := Insert(x, s[1..], key);
      assert s == [s[0]] + s[1..];
      HeadBelowAll(s[0], rest, x, s[1..], key);
      [s[0]] + rest
  }

  lemma InsertFront<T>(x: T, s: seq<T>, key: T -> string)
    requires SortedBy(s, key) && |s| > 0 && LexLe(key(x), key(s[0]))
    ensures SortedBy([x] + s, key)
  {
    forall j | 1 <= j < |s| + 1
      ensures LexLe(key(([x] + s)[0]), key(([x] + s)[j]))
    {
      if j > 1 {
        LexLeTransitive(key(x), key(s[0]), key(s[j - 1]));
      }
    }
  }

  lemma HeadBelowAll<T>(h: T, rest: seq<T>, x: T, tail: seq<T>, key: T -> string)
    requires SortedBy(rest, key) && SortedBy([h] + tail, key)
    requires multiset(rest) == multiset(tail) + multiset{x}
    requires LexLe(key(h), key(x))
    ensures SortedBy([h] + rest, key)
  {
    forall j | 0 <= j < |rest|
      ensures LexLe(key(h), key(rest[j]))
    {
      assert rest[j] in multiset(rest);
      if rest[j] == x {
        assert key(rest[j]) == key(x);
      } else {
        assert rest[j] in multiset(tail);
        assert rest[j] in tail;
        var k :| 0 <= k < |tail| && tail[k] == rest[j];
        assert ([h] + tail)[0] == h && ([h] + tail)[k + 1] == rest[j];
        assert LexLe(key(([h] + tail)[0]), key(([h] + tail)[k + 1]));
      }
    }
    var r := [h] + rest;
    forall i, j | 0 <= i < j < |r|
      ensures LexLe(key(r[i]), key(r[j]))
    {
      if i > 0 {
        assert r[i] == rest[i - 1] && r[j] == rest[j - 1];
      }
    }
  }

  /** The stable sort of `s` by `key`. */
  function SortBy<T(==)>(s: seq<T>, key: T -> string): (r: seq<T>)
    ensures |r| == |s|
    ensures multiset(r) == multiset(s)
    ensures SortedBy(r, key)
    decreases |s|
  {
    if |s| == 0 then []
    else
      var rest := SortBy(s[1..], key);
      assert s == [s[0]] + s[1..];
      Insert(s[0], rest, key)
  }

  /** Sorting a sequence that is already in order changes nothing, so sorting
      twice by the same key gives the order of the first sort. */
  lemma {:induction false} SortBySorted<T>(s: seq<T>, key: T -> string)
    requires SortedBy(s, key)
    ensures SortBy(s, key) == s
    decreases |s|
  {
    if |s| > 0 {
      assert SortedBy(s[1..], key) by {
        forall i, j | 0 <= i < j < |s| - 1
          ensures LexLe(key(s[1..][i]), key(s[1..][j]))
        {
          assert s[1..][i] == s[i + 1] && s[1..][j] == s[j + 1];
        }
      }
      SortBySorted(s[1..], key);
      if |s| > 1 {
        assert LexLe(key(s[0]), key(s[1]));
      }
      assert [s[0]] + s[1..] == s;
    }
  }

  lemma SortByIdempotent<T>(s: seq<T>, key: T -> string)
    ensures SortBy(SortBy(s, key), key) == SortBy(s, key)
  {
    SortBySorted(SortBy(s, key), key);
  }

  /** The elements of `s` whose key is `k`, in the order of `s`. */
  function WithKey<T>(s: seq<T>, key: T -> string, k: string): seq<T>
    decreases |s|
  {
    if |s| == 0 then []
    else (if key(s[0]) == k then [s[0]] else []) + WithKey(s[1..], key, k)
  }

  lemma LexLeReflexive(a: string)
    ensures LexLe(a, a)
  {
    LexLeTotal(a, a);
  }

  lemma WithKeyCons<T>(y: T, t: seq<T>, key: T -> string, k: string)
    ensures WithKey([y] + t, key, k) == (if key(y) == k then [y] else []) + WithKey(t, key, k)
  {
    assert ([y] + t)[0] == y && ([y] + t)[1..] == t;
  }

  /** Inserting `x` puts it in front of every element with its key. */
  lemma {:induction false} InsertWithKey<T>(x: T, s: seq<T>, key: T -> string, k: string)
    requires SortedBy(s, key)
    ensures WithKey(Insert(x, s, key), key, k) ==
      (if key(x) == k then [x] else []) + WithKey(s, key, k)
    decreases |s|
  {
    if |s| == 0 {
      WithKeyCons(x, s, key, k);
    } else if LexLe(key(x), key(s[0])) {
      WithKeyCons(x, s, key, k);
    } else {
      SortedTail(s, key);
      InsertWithKey(x, s[1..], key, k);
      if key(x) == k && key(s[0]) == k {
        LexLeReflexive(k);
      }
      assert Insert(x, s, key) == [s[0]] + Insert(x, s[1..], key);
      WithKeyPassOver(x, s[0], Insert(x, s[1..], key), s[1..], key, k);
      assert [s[0]] + s[1..] == s;
    }
  }

  /** `x` passes over an element `h` of another key. */
  lemma WithKeyPassOver<T>(x: T, h: T, rest: seq<T>, tail: seq<T>, key: T -> string, k: string)
    requires WithKey(rest, key, k) == (if key(x) == k then [x] else []) + WithKey(tail, key, k)
    requires !(key(x) == k && key(h) == k)
    ensures WithKey([h] + rest, key, k) == (if key(x) == k then [x] else []) + WithKey([h] + tail, key, k)
  {
    WithKeyCons(h, rest, key, k);
    WithKeyCons(h, tail, key, k);
  }

  /** The sort is stable: the elements sharing a key come out in the order
      they went in. */
  lemma {:induction false} SortByStable<T>(s: seq<T>, key: T -> string, k: string)
    ensures WithKey(SortBy(s, key), key, k) == WithKey(s, key, k)
    decreases |s|
  {
    if |s| > 0 {
      SortByStable(s[1..], key, k);
      InsertWithKey(s[0], SortBy(s[1..], key), key, k);
    }
  }

  lemma SortedTail<T>(s: seq<T>, key: T -> string)
    requires SortedBy(s, key) && |s| > 0
    ensures SortedBy(s[1..], key)
  {
    forall i, j | 0 <= i < j < |s| - 1
      ensures LexLe(key(s[1..][i]), key(s[1..][j]))
    {
      assert s[1..][i] == s[i + 1] && s[1..][j] == s[j + 1];
    }
  }

  lemma {:induction false} InsertKeysAgree<T>(x: T, s: seq<T>, k1: T -> string, k2: T -> string)
    requires SortedBy(s, k1) && SortedBy(s, k2)
    requires k1(x) == k2(x)
    requires forall y :: y in s ==> k1(y) == k2(y)
    ensures Insert(x, s, k1) == Insert(x, s, k2)
    decreases |s|
  {
    if |s| > 0 {
      assert s[0] in s;
      SortedTail(s, k1);
      SortedTail(s, k2);
      InsertKeysAgree(x, s[1..], k1, k2);
    }
  }

  /** The sort looks only at the keys: two keys that agree on every element
      give the same order. */
  lemma {:induction false} SortByKeysAgree<T>(s: seq<T>, k1: T -> string, k2: T -> string)
    requires forall y :: y in s ==> k1(y) == k2(y)
    ensures SortBy(s, k1) == SortBy(s, k2)
    decreases |s|
  {
    if |s| > 0 {
      SortByKeysAgree(s[1..], k1, k2);
      var rest := SortBy(s[1..], k1);
      forall y | y in rest
        ensures k1(y) == k2(y)
      {
        assert y in multiset(rest);
        assert y in multiset(s[1..]);
      }
      assert s[0] in s;
      InsertKeysAgree(s[0], rest, k1, k2);
    }
  }
}
