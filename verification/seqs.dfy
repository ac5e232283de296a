/** Sequence operations that model java.util.List calls made by the editor. */
module Seqs {

  /** `List.remove(Object)`: drops the first element equal to `x`, if any. */
  function RemoveFirst<T(==)>(s: seq<T>, x: T): (r: seq<T>)
    ensures x !in s ==> r == s
    ensures x in s ==> |r| == |s| - 1
  {
    if s == [] then []
    else if s[0] == x then s[1..]
    else [s[0]] + RemoveFirst(s[1..], x)
  }

  lemma {:induction false} RemoveFirstMultiset<T>(s: seq<T>, x: T)
    ensures multiset(RemoveFirst(s, x)) == multiset(s) - multiset{x}
    decreases s
  {
    if s != [] {
      assert s == [s[0]] + s[1..];
      if s[0] != x {
        RemoveFirstMultiset(s[1..], x);
      }
    }
  }

  /** `List.indexOf(Object)`: the first position holding `x`, or -1. */
  function IndexOf<T(==)>(s: seq<T>, x: T): (i: int)
    ensures -1 <= i < |s|
    ensures i == -1 <==> x !in s
    ensures 0 <= i ==> s[i] == x && x !in s[..i]
  {
    if s == [] then -1
    else if s[0] == x then 0
    else
      var j := IndexOf(s[1..], x);
      assert s[1..][..(if j < 0 then 0 else j)] == s[1..(if j < 0 then 1 else j + 1)];
      if j < 0 then -1 else j + 1
  }

  lemma TakeSnoc<T>(s: seq<T>, i: nat)
    requires i < |s|
    ensures s[..i + 1] == s[..i] + [s[i]]
  {
  }

  lemma AppendAssoc<T>(a: seq<T>, b: seq<T>, c: seq<T>)
    ensures (a + b) + c == a + (b + c)
  {
  }

  lemma AppendHeadTail<T>(a: seq<T>, s: seq<T>)
    requires s != []
    ensures a + [s[0]] + s[1..] == a + s
  {
    assert [s[0]] + s[1..] == s;
  }

  lemma ConsAppend<T>(x: T, a: seq<T>, b: seq<T>)
    ensures [x] + (a + b) == ([x] + a) + b
  {
  }

  lemma TailOfAppend<T>(a: seq<T>, b: seq<T>)
    requires a != []
    ensures (a + b)[0] == a[0] && (a + b)[1..] == a[1..] + b
  {
  }

  lemma Assoc7<T>(a: seq<T>, b: seq<T>, c: seq<T>, d: seq<T>, e: seq<T>, f: seq<T>, g: seq<T>)
    ensures a + (b + (c + (d + (e + (f + g))))) == a + b + c + d + e + f + g
  {
  }

  /** `RemoveFirst` drops the element at the first position holding it. */
  lemma {:induction false} RemoveFirstAt<T>(s: seq<T>, i: nat)
    requires i < |s| && s[i] !in s[..i]
    ensures RemoveFirst(s, s[i]) == s[..i] + s[i + 1..]
    decreases i
  {
    if i > 0 {
      assert s[0] != s[i] by { assert s[0] == s[..i][0]; }
      assert s[1..][i - 1] == s[i];
      assert s[1..][..i - 1] == s[1..i];
      RemoveFirstAt(s[1..], i - 1);
      RemoveFirstSkipsHead(s[0], s[1..], s[i]);
      assert s == [s[0]] + s[1..];
      assert [s[0]] + (s[1..][..i - 1] + s[1..][i..]) == s[..i] + s[i + 1..];
    }
  }

  lemma RemoveFirstIndexOf<T>(s: seq<T>, x: T)
    requires x in s
    ensures RemoveFirst(s, x) == s[..IndexOf(s, x)] + s[IndexOf(s, x) + 1..]
  {
    RemoveFirstAt(s, IndexOf(s, x));
  }

  /** Applies `RemoveFirst` once per element of `xs`, in order. */
  function RemoveEach<T(==)>(s: seq<T>, xs: seq<T>): seq<T>
    decreases xs
  {
    if xs == [] then s else RemoveEach(RemoveFirst(s, xs[0]), xs[1..])
  }

  /** `RemoveFirst` applied `k` times with the same element. */
  function RemoveN<T(==)>(s: seq<T>, x: T, k: nat): seq<T>
  {
    if k == 0 then s else RemoveFirst(RemoveN(s, x, k - 1), x)
  }

  lemma {:induction false} RemoveEachSnoc<T>(s: seq<T>, xs: seq<T>, x: T)
    ensures RemoveEach(s, xs + [x]) == RemoveFirst(RemoveEach(s, xs), x)
    decreases xs
  {
    if xs == [] {
      assert xs + [x] == [x];
    } else {
      assert (xs + [x])[1..] == xs[1..] + [x];
      RemoveEachSnoc(RemoveFirst(s, xs[0]), xs[1..], x);
    }
  }

  lemma {:induction false} RemoveFirstSkipsHead<T>(h: T, t: seq<T>, x: T)
    requires h != x
    ensures RemoveFirst([h] + t, x) == [h] + RemoveFirst(t, x)
  {
    assert ([h] + t)[1..] == t;
  }

  lemma {:induction false} RemoveEachSkipsHead<T>(h: T, t: seq<T>, xs: seq<T>)
    requires h !in xs
    ensures RemoveEach([h] + t, xs) == [h] + RemoveEach(t, xs)
    decreases xs
  {
    if xs != [] {
      RemoveFirstSkipsHead(h, t, xs[0]);
      RemoveEachSkipsHead(h, RemoveFirst(t, xs[0]), xs[1..]);
    }
  }

  /** Number of occurrences of `x` in `s`. */
  function Count<T(==)>(s: seq<T>, x: T): nat { multiset(s)[x] }

  /** Removing k copies after having counted at most k of them leaves none behind. */
  lemma RemoveNAll<T>(s: seq<T>, x: T, k: nat)
    requires Count(s, x) <= k
    ensures x !in RemoveN(s, x, k)
  {
    RemoveNCount(s, x, k);
    assert multiset(RemoveN(s, x, k))[x] == 0;
  }

  lemma {:induction false} RemoveNCount<T>(s: seq<T>, x: T, k: nat)
    ensures Count(RemoveN(s, x, k), x) == if Count(s, x) >= k then Count(s, x) - k else 0
  {
    if k > 0 {
      RemoveNCount(s, x, k - 1);
      RemoveFirstCount(RemoveN(s, x, k - 1), x);
    }
  }

  lemma RemoveFirstCount<T>(p: seq<T>, x: T)
    ensures Count(RemoveFirst(p, x), x) == if Count(p, x) > 0 then Count(p, x) - 1 else 0
  {
    RemoveFirstMultiset(p, x);
  }
}
