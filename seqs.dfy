/** Sequence helpers for the erase/remove idiom the source uses on vectors:
    `v.erase(std::remove_if(v.begin(), v.end(), [&](auto& e) { return e == x; }), v.end())`
    and `std::erase_if(v, pred)`. Both keep the surviving elements in their original order. */
module Seqs {

  /** The sequence `s` with every occurrence of `x` erased, order kept. */
  function Without<T(==)>(s: seq<T>, x: T): (r: seq<T>)
    ensures |r| <= |s|
    ensures x !in r
    ensures forall i :: 0 <= i < |r| ==> r[i] in s && r[i] != x
    ensures forall i :: 0 <= i < |s| && s[i] != x ==> s[i] in r
    ensures multiset(r) == multiset(s)[x := 0]
  {
    if s == [] then []
    else
      assert s == [s[0]] + s[1..];
      if s[0] == x then Without(s[1..], x)
      else [s[0]] + Without(s[1..], x)
  }

  /** What survives erasing `x` is everything of `s` but `x`. */
  lemma WithoutMembers<T>(s: seq<T>, x: T)
    ensures forall k :: k in Without(s, x) <==> k in s && k != x
  {
    var r := Without(s, x);
    forall k | k in r ensures k in s && k != x {
      var i :| 0 <= i < |r| && r[i] == k;
    }
    forall k | k in s && k != x ensures k in r {
      var i :| 0 <= i < |s| && s[i] == k;
    }
  }

  /** The sequence `s` with every element of the set `xs` erased, order kept. */
  function RemoveAll<T(==)>(s: seq<T>, xs: set<T>): (r: seq<T>)
    ensures |r| <= |s|
    ensures forall i :: 0 <= i < |r| ==> r[i] in s && r[i] !in xs
    ensures forall i :: 0 <= i < |s| && s[i] !in xs ==> s[i] in r
  {
    if s == [] then []
    else if s[0] in xs then RemoveAll(s[1..], xs)
    else [s[0]] + RemoveAll(s[1..], xs)
  }

  /** Multiplicity after a set-erase: an element of the set is gone, every other element
      occurs exactly as often as before. */
  lemma {:induction false} RemoveAllCounts<T>(s: seq<T>, xs: set<T>, x: T)
    ensures multiset(RemoveAll(s, xs))[x] == if x in xs then 0 else multiset(s)[x]
  {
    if s != [] {
      RemoveAllCounts(s[1..], xs, x);
      assert s == [s[0]] + s[1..];
    }
  }

  /** Set-erasing distributes over concatenation: the survivors keep their order. */
  lemma {:induction false} RemoveAllAppend<T>(a: seq<T>, b: seq<T>, xs: set<T>)
    ensures RemoveAll(a + b, xs) == RemoveAll(a, xs) + RemoveAll(b, xs)
  {
    if a == [] {
      assert a + b == b;
    } else {
      assert (a + b)[1..] == a[1..] + b;
      RemoveAllAppend(a[1..], b, xs);
    }
  }

  /** Erasing distributes over concatenation: the survivors of `a + b` are the survivors of `a`
      followed by the survivors of `b`, which is what "order kept" means. */
  lemma {:induction false} WithoutAppend<T>(a: seq<T>, b: seq<T>, x: T)
    ensures Without(a + b, x) == Without(a, x) + Without(b, x)
  {
    if a == [] {
      assert a + b == b;
    } else {
      assert (a + b)[1..] == a[1..] + b;
      WithoutAppend(a[1..], b, x);
    }
  }

  /** Erasing an element that does not occur changes nothing. */
  lemma {:induction false} WithoutAbsent<T>(s: seq<T>, x: T)
    requires x !in s
    ensures Without(s, x) == s
  {
    if s != [] {
      WithoutAbsent(s[1..], x);
      assert s == [s[0]] + s[1..];
    }
  }

  /** Erasing is idempotent. */
  lemma WithoutIdempotent<T>(s: seq<T>, x: T)
    ensures Without(Without(s, x), x) == Without(s, x)
  {
    WithoutAbsent(Without(s, x), x);
  }

  /** Erasing one more element after a set-erase is the set-erase of the larger set: the loop
      `for t in deleted: erase_if(owned, == t)` therefore filters by the whole deleted list. */
  lemma {:induction false} WithoutRemoveAll<T>(s: seq<T>, xs: set<T>, x: T)
    ensures Without(RemoveAll(s, xs), x) == RemoveAll(s, xs + {x})
  {
    if s != [] {
      WithoutRemoveAll(s[1..], xs, x);
    }
  }

  /** Removing the empty set changes nothing. */
  lemma {:induction false} RemoveAllEmpty<T>(s: seq<T>)
    ensures RemoveAll(s, {}) == s
  {
    if s != [] {
      RemoveAllEmpty(s[1..]);
      assert s == [s[0]] + s[1..];
    }
  }

  /** Membership after a set-erase: exactly the elements of `s` outside `xs` survive. */
  lemma {:induction false} RemoveAllMembership<T>(s: seq<T>, xs: set<T>, x: T)
    ensures x in RemoveAll(s, xs) <==> x in s && x !in xs
  {
    if s != [] {
      RemoveAllMembership(s[1..], xs, x);
      assert s == [s[0]] + s[1..];
    }
  }
}
