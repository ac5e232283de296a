/**
 * `List.sort(Comparator.comparing(key))` on string keys: a stable sort by the
 * lexicographic order of `String.compareTo`.
 */
module Sorting {

  /** `a.compareTo(b) <= 0`: at the first differing position the smaller character wins;
      when one string is a prefix of the other, the shorter comes first. */
  predicate StrLe(a: string, b: string)
  {
    |a| == 0 || (|b| > 0 && (a[0] < b[0] || (a[0] == b[0] && StrLe(a[1..], b[1..]))))
  }

  /** Any two strings are ordered one way or the other. */
  lemma {:induction false} StrLeTotal(a: string, b: string)
    ensures StrLe(a, b) || StrLe(b, a)
  {
    if |a| > 0 && |b| > 0 && a[0] == b[0] {
      StrLeTotal(a[1..], b[1..]);
    }
  }

  predicate SortedBy<T>(s: seq<T>, key: T -> string)
  {
    forall i :: 0 < i < |s| ==> StrLe(key(s[i - 1]), key(s[i]))
  }

  /** Places `x` before the first element whose key is not below its own. */
  function Insert<T>(x: T, s: seq<T>, key: T -> string): seq<T>
  {
    if s == [] then [x]
    else if StrLe(key(x), key(s[0])) then [x] + s
    else [s[0]] + Insert(x, s[1..], key)
  }

  /** The sorted sequence, elements with equal keys kept in their original order. */
  function SortBy<T>(s: seq<T>, key: T -> string): seq<T>
  {
    if s == [] then [] else Insert(s[0], SortBy(s[1..], key), key)
  }

  lemma SortedTail<T>(s: seq<T>, key: T -> string)
    requires s != [] && SortedBy(s, key)
    ensures SortedBy(s[1..], key)
  {
    var t := s[1..];
    forall i | 0 < i < |t| ensures StrLe(key(t[i - 1]), key(t[i])) {
      assert t[i - 1] == s[i] && t[i] == s[i + 1];
    }
  }

  lemma SortedCons<T>(h: T, t: seq<T>, key: T -> string)
    requires SortedBy(t, key) && (t != [] ==> StrLe(key(h), key(t[0])))
    ensures SortedBy([h] + t, key)
  {
    var r := [h] + t;
    forall i | 0 < i < |r| ensures StrLe(key(r[i - 1]), key(r[i])) {
      if i > 1 {
        assert r[i - 1] == t[i - 2] && r[i] == t[i - 1];
      }
    }
  }

  lemma {:induction false} InsertSorted<T>(x: T, s: seq<T>, key: T -> string)
    requires SortedBy(s, key)
    ensures SortedBy(Insert(x, s, key), key)
    ensures multiset(Insert(x, s, key)) == multiset(s) + multiset{x}
    ensures |Insert(x, s, key)| == |s| + 1
    ensures Insert(x, s, key)[0] == x || (s != [] && Insert(x, s, key)[0] == s[0])
    decreases s
  {
    if s == [] {
    } else if StrLe(key(x), key(s[0])) {
      SortedCons(x, s, key);
    } else {
      var t := s[1..];
      SortedTail(s, key);
      InsertSorted(x, t, key);
      StrLeTotal(key(x), key(s[0]));
      var rt := Insert(x, t, key);
      assert Insert(x, s, key) == [s[0]] + rt;
      if t != [] && rt[0] == t[0] {
        assert StrLe(key(s[0]), key(s[1]));
      }
      SortedCons(s[0], rt, key);
      assert s == [s[0]] + t;
    }
  }

  /** The sort returns its input sorted by key, as a permutation. */
  lemma {:induction false} SortBySortsAndPermutes<T>(s: seq<T>, key: T -> string)
    ensures SortedBy(SortBy(s, key), key)
    ensures multiset(SortBy(s, key)) == multiset(s)
    ensures |SortBy(s, key)| == |s|
    decreases s
  {
    if s != [] {
      var t := SortBy(s[1..], key);
      SortBySortsAndPermutes(s[1..], key);
      InsertSorted(s[0], t, key);
      assert SortBy(s, key) == Insert(s[0], t, key);
      assert multiset(s) == multiset(s[1..]) + multiset{s[0]} by {
        assert s == [s[0]] + s[1..];
      }
    }
  }

  /** An already sorted sequence is left as it is. */
  lemma {:induction false} SortByOfSorted<T>(s: seq<T>, key: T -> string)
    requires SortedBy(s, key)
    ensures SortBy(s, key) == s
    decreases s
  {
    if s != [] {
      var t := s[1..];
      SortedTail(s, key);
      SortByOfSorted(t, key);
      assert s == [s[0]] + t;
    }
  }

  /** Sorting twice is sorting once. */
  lemma SortByIdempotent<T>(s: seq<T>, key: T -> string)
    ensures SortBy(SortBy(s, key), key) == SortBy(s, key)
  {
    SortBySortsAndPermutes(s, key);
    SortByOfSorted(SortBy(s, key), key);
  }

  lemma {:induction false} StrLeReflexive(a: string)
    ensures StrLe(a, a)
  {
    if |a| > 0 {
      StrLeReflexive(a[1..]);
    }
  }

  /** The elements of `s` whose key is `k`, in order. */
  function WithKey<T>(s: seq<T>, key: T -> string, k: string): seq<T>
  {
    if s == [] then []
    else if key(s[0]) == k then [s[0]] + WithKey(s[1..], key, k)
    else WithKey(s[1..], key, k)
  }

  /** `Insert` puts its element ahead of every element with the same key. */
  lemma {:induction false} InsertWithKey<T>(x: T, s: seq<T>, key: T -> string, k: string)
    ensures WithKey(Insert(x, s, key), key, k) == (if key(x) == k then [x] else []) + WithKey(s, key, k)
    decreases s
  {
    if s == [] {
    } else if StrLe(key(x), key(s[0])) {
      assert ([x] + s)[1..] == s;
    } else {
      InsertWithKey(x, s[1..], key, k);
      var r := [s[0]] + Insert(x, s[1..], key);
      assert r[1..] == Insert(x, s[1..], key);
      if key(x) == k && key(s[0]) == k {
        StrLeReflexive(k);
      }
    }
  }

  /** The sort is stable: elements with equal keys keep their relative order. */
  lemma {:induction false} SortByStable<T>(s: seq<T>, key: T -> string, k: string)
    ensures WithKey(SortBy(s, key), key, k) == WithKey(s, key, k)
    decreases s
  {
    if s != [] {
      SortByStable(s[1..], key, k);
      InsertWithKey(s[0], SortBy(s[1..], key), key, k);
    }
  }
}
