/** Lexicographic order on strings, the sort both Go and Python apply to it, and uniqueness of sorted lists. */
module Ordering {

  predicate StrLe(a: string, b: string) {
    a == "" || (b != "" && (a[0] < b[0] || (a[0] == b[0] && StrLe(a[1..], b[1..]))))
  }

  predicate StrLt(a: string, b: string) {
    StrLe(a, b) && a != b
  }

  lemma {:induction false} StrLeTotal(a: string, b: string)
    ensures StrLe(a, b) || StrLe(b, a)
  {
    if a != "" && b != "" && a[0] == b[0] {
      StrLeTotal(a[1..], b[1..]);
    }
  }

  lemma {:induction false} StrLeAntisymmetric(a: string, b: string)
    requires StrLe(a, b) && StrLe(b, a)
    ensures a == b
  {
    if a != "" {
      StrLeAntisymmetric(a[1..], b[1..]);
      assert a == [a[0]] + a[1..] && b == [b[0]] + b[1..];
    }
  }

  lemma {:induction false} StrLeTransitive(a: string, b: string, c: string)
    requires StrLe(a, b) && StrLe(b, c)
    ensures StrLe(a, c)
  {
    if a != "" && a[0] == b[0] == c[0] {
      StrLeTransitive(a[1..], b[1..], c[1..]);
    }
  }

  /** The texts first differ at k, where `a` has the smaller character. */
  predicate SmallerAt(a: string, b: string, k: nat) {
    k < |a| && k < |b| && a[..k] == b[..k] && a[k] < b[k]
  }

  lemma SmallerAtTail(a: string, b: string, k: nat)
    requires a != "" && b != "" && a[0] == b[0]
    ensures SmallerAt(a[1..], b[1..], k) <==> SmallerAt(a, b, k + 1)
  {
    if k < |a[1..]| && k < |b[1..]| {
      assert a[..k + 1] == [a[0]] + a[1..][..k] && b[..k + 1] == [b[0]] + b[1..][..k];
      assert a[1..][..k] == a[..k + 1][1..] && b[1..][..k] == b[..k + 1][1..];
    }
  }

  /** A text comes before another exactly if it begins it, or has the smaller character where they first differ. */
  lemma {:induction false} StrLeIff(a: string, b: string)
    ensures StrLe(a, b) <==> a <= b || exists k: nat :: SmallerAt(a, b, k)
  {
    if a != "" && b != "" {
      if a[0] == b[0] {
        StrLeIff(a[1..], b[1..]);
        assert a <= b <==> a[1..] <= b[1..];
        if k: nat :| SmallerAt(a[1..], b[1..], k) {
          SmallerAtTail(a, b, k);
        }
        if k: nat :| SmallerAt(a, b, k) {
          assert k > 0;
          SmallerAtTail(a, b, k - 1);
        }
      } else {
        if a[0] < b[0] {
          assert SmallerAt(a, b, 0);
        }
        forall k: nat | k > 0 ensures !SmallerAt(a, b, k) {
          assert k < |a| && k < |b| ==> a[..k][0] == a[0] && b[..k][0] == b[0];
        }
      }
    }
  }

  /** A total preorder, as a comparison function for sorting. */
  ghost predicate Comparison<T(!new)>(le: (T, T) -> bool) {
    && (forall a, b :: le(a, b) || le(b, a))
    && (forall a, b, c :: le(a, b) && le(b, c) ==> le(a, c))
  }

  ghost predicate Antisymmetric<T(!new)>(le: (T, T) -> bool) {
    forall a, b :: le(a, b) && le(b, a) ==> a == b
  }

  lemma StrLeIsTotalOrder()
    ensures Comparison(StrLe) && Antisymmetric(StrLe)
  {
    forall a, b ensures StrLe(a, b) || StrLe(b, a) { StrLeTotal(a, b); }
    forall a, b | StrLe(a, b) && StrLe(b, a) ensures a == b { StrLeAntisymmetric(a, b); }
    forall a, b, c | StrLe(a, b) && StrLe(b, c) ensures StrLe(a, c) { StrLeTransitive(a, b, c); }
  }

  /** Each element is strictly below every later one. */
  ghost predicate Ascending<T(!new)>(xs: seq<T>, le: (T, T) -> bool) {
    forall i, j :: 0 <= i < j < |xs| ==> le(xs[i], xs[j]) && !le(xs[j], xs[i])
  }

  ghost function Elements<T>(xs: seq<T>): set<T> {
    set x | x in xs
  }

  lemma ElementsSnoc<T>(xs: seq<T>, x: T)
    ensures Elements(xs + [x]) == Elements(xs) + {x}
  {
  }

  lemma AscendingHead<T(!new)>(xs: seq<T>, le: (T, T) -> bool)
    requires xs != [] && Ascending(xs, le)
    ensures forall x :: x in xs && x != xs[0] ==> le(xs[0], x) && !le(x, xs[0])
    ensures Ascending(xs[1..], le) && Elements(xs[1..]) == Elements(xs) - {xs[0]}
  {
  }

  lemma EmptyIfNoElements<T>(xs: seq<T>)
    ensures Elements(xs) == {} <==> xs == []
  {
    assert |xs| > 0 ==> xs[0] in Elements(xs);
  }

  /** A set has at most one ascending enumeration. */
  lemma {:induction false} AscendingIsUnique<T(!new)>(xs: seq<T>, ys: seq<T>, le: (T, T) -> bool)
    requires Comparison(le) && Ascending(xs, le) && Ascending(ys, le)
    requires Elements(xs) == Elements(ys)
    ensures xs == ys
  {
    assert forall x :: x in xs <==> x in Elements(xs);
    assert forall y :: y in ys <==> y in Elements(ys);
    if xs == [] {
      EmptyIfNoElements(ys);
    } else {
      assert xs[0] in ys;
      AscendingHead(xs, le);
      AscendingHead(ys, le);
      AscendingIsUnique(xs[1..], ys[1..], le);
      assert xs == [xs[0]] + xs[1..] && ys == [ys[0]] + ys[1..];
    }
  }

  method InsertAscending<T(==, !new)>(xs: seq<T>, x: T, le: (T, T) -> bool) returns (r: seq<T>)
    requires Comparison(le) && Ascending(xs, le)
    requires forall y :: y in xs ==> !(le(x, y) && le(y, x))
    ensures Ascending(r, le) && Elements(r) == Elements(xs) + {x}
  {
    var at := 0;
    while at < |xs| && le(xs[at], x)
      invariant 0 <= at <= |xs|
      invariant forall i :: 0 <= i < at ==> le(xs[i], x)
    {
      at := at + 1;
    }
    forall i | at <= i < |xs| ensures le(x, xs[i]) {
      assert i > at ==> le(xs[at], xs[i]);
    }
    r := xs[..at] + [x] + xs[at..];
    assert forall y :: y in r <==> y in xs || y == x by {
      assert xs == xs[..at] + xs[at..];
    }
  }

  /** No two elements compare equal. */
  ghost predicate Distinguishes<T(!new)>(le: (T, T) -> bool, xs: seq<T>) {
    forall i, j :: 0 <= i < j < |xs| ==> !(le(xs[i], xs[j]) && le(xs[j], xs[i]))
  }

  /** The library sort on a list of elements that all compare differently, as an insertion sort. */
  method SortDistinct<T(==, !new)>(xs: seq<T>, le: (T, T) -> bool) returns (r: seq<T>)
    requires Comparison(le) && Distinguishes(le, xs)
    ensures Ascending(r, le) && Elements(r) == Elements(xs)
  {
    r := [];
    for n := 0 to |xs|
      invariant Ascending(r, le) && Elements(r) == Elements(xs[..n])
    {
      forall y | y in r ensures !(le(xs[n], y) && le(y, xs[n])) {
        assert y in Elements(r);
      }
      r := InsertAscending(r, xs[n], le);
      assert xs[..n + 1] == xs[..n] + [xs[n]];
      ElementsSnoc(xs[..n], xs[n]);
    }
    assert xs[..|xs|] == xs;
  }

  /** List a set, in whatever order it is iterated, and sort the list. */
  method SortedSet<T(==, !new)>(s: set<T>, le: (T, T) -> bool) returns (r: seq<T>)
    requires Comparison(le)
    requires forall a, b :: a in s && b in s && le(a, b) && le(b, a) ==> a == b
    ensures Ascending(r, le) && Elements(r) == s
    ensures forall i, j :: 0 <= i < j < |r| ==> r[i] != r[j]
  {
    var listed: seq<T> := [];
    var remaining := s;
    while remaining != {}
      invariant Elements(listed) == s - remaining && remaining <= s
      invariant forall i, j :: 0 <= i < j < |listed| ==> listed[i] != listed[j]
      decreases remaining
    {
      var x :| x in remaining;
      assert forall y :: y in listed ==> y in Elements(listed);
      ElementsSnoc(listed, x);
      listed := listed + [x];
      remaining := remaining - {x};
    }
    assert forall i :: 0 <= i < |listed| ==> listed[i] in Elements(listed);
    r := SortDistinct(listed, le);
  }
}
