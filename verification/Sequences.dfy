/** Filtering, counting and permutations of sequences. */
module Sequences {

  function Filter<T(!new)>(s: seq<T>, p: T -> bool): (r: seq<T>)
    ensures forall x :: x in r <==> x in s && p(x)
  {
    if s == [] then []
    else
      var init, last := s[..|s| - 1], s[|s| - 1];
      Filter(init, p) + if p(last) then [last] else []
  }

  lemma {:induction false} FilterConcat<T(!new)>(s: seq<T>, t: seq<T>, p: T -> bool)
    ensures Filter(s + t, p) == Filter(s, p) + Filter(t, p)
  {
    if t == [] {
      assert s + t == s;
    } else {
      assert (s + t)[..|s + t| - 1] == s + t[..|t| - 1];
      FilterConcat(s, t[..|t| - 1], p);
    }
  }

  lemma FilterSnoc<T(!new)>(s: seq<T>, x: T, p: T -> bool)
    ensures Filter(s + [x], p) == Filter(s, p) + if p(x) then [x] else []
  {
    assert (s + [x])[..|s|] == s;
  }

  lemma FilterStep<T(!new)>(s: seq<T>, n: nat, p: T -> bool)
    requires n < |s|
    ensures Filter(s[..n + 1], p) == Filter(s[..n], p) + if p(s[n]) then [s[n]] else []
  {
    assert s[..n + 1][..n] == s[..n];
  }

  /** A filter keeps every occurrence of what passes and none of what does not. */
  lemma {:induction false} FilterCount<T(!new)>(s: seq<T>, p: T -> bool, x: T)
    ensures multiset(Filter(s, p))[x] == if p(x) then multiset(s)[x] else 0
  {
    if s != [] {
      FilterCount(s[..|s| - 1], p, x);
      assert s == s[..|s| - 1] + [s[|s| - 1]];
    }
  }

  predicate Permutation<T(==)>(s: seq<T>, t: seq<T>) {
    multiset(s) == multiset(t)
  }

  lemma PermutationElements<T>(s: seq<T>, t: seq<T>)
    requires Permutation(s, t)
    ensures |s| == |t|
    ensures forall x :: x in s <==> x in t
  {
    assert |multiset(s)| == |multiset(t)|;
    forall x ensures x in s <==> x in t {
      assert x in s <==> x in multiset(s);
      assert x in t <==> x in multiset(t);
    }
  }

  /** Filtering twice is filtering by the conjunction. */
  lemma {:induction false} FilterTwice<T(!new)>(s: seq<T>, p: T -> bool, q: T -> bool, both: T -> bool)
    requires forall x :: x in s ==> (both(x) <==> p(x) && q(x))
    ensures Filter(Filter(s, p), q) == Filter(s, both)
  {
    if s != [] {
      var init, last := s[..|s| - 1], s[|s| - 1];
      FilterTwice(init, p, q, both);
      FilterConcat(Filter(init, p), if p(last) then [last] else [], q);
    }
  }

  lemma ConcatAssociates<T>(a: seq<T>, b: seq<T>, c: seq<T>)
    ensures a + b + c == a + (b + c)
  {
  }

  function Flatten<T>(ss: seq<seq<T>>): seq<T> {
    if ss == [] then [] else Flatten(ss[..|ss| - 1]) + ss[|ss| - 1]
  }

  lemma {:induction false} FlattenConcat<T>(s: seq<seq<T>>, t: seq<seq<T>>)
    ensures Flatten(s + t) == Flatten(s) + Flatten(t)
  {
    if t == [] {
      assert s + t == s;
    } else {
      assert (s + t)[..|s + t| - 1] == s + t[..|t| - 1];
      FlattenConcat(s, t[..|t| - 1]);
    }
  }

  lemma FlattenSnoc<T>(ss: seq<seq<T>>, s: seq<T>)
    ensures Flatten(ss + [s]) == Flatten(ss) + s
  {
    assert (ss + [s])[..|ss|] == ss;
  }

  lemma {:induction false} FlattenMember<T>(ss: seq<seq<T>>, x: T)
    ensures x in Flatten(ss) <==> exists i :: 0 <= i < |ss| && x in ss[i]
  {
    if ss != [] {
      FlattenMember(ss[..|ss| - 1], x);
      assert forall i :: 0 <= i < |ss| - 1 ==> ss[..|ss| - 1][i] == ss[i];
    }
  }

  /** Each part flattened on its own. */
  function Flattened<T>(groups: seq<seq<seq<T>>>): (r: seq<seq<T>>)
    ensures |r| == |groups|
  {
    seq(|groups|, i requires 0 <= i < |groups| => Flatten(groups[i]))
  }

  lemma {:induction false} FlattenFlatten<T>(groups: seq<seq<seq<T>>>)
    ensures Flatten(Flatten(groups)) == Flatten(Flattened(groups))
  {
    if groups != [] {
      var init, last := groups[..|groups| - 1], groups[|groups| - 1];
      FlattenFlatten(init);
      FlattenConcat(Flatten(init), last);
      assert Flattened(groups)[..|init|] == Flattened(init);
    }
  }

  lemma WithoutOne<T>(s: seq<T>, t: seq<T>, x: T, u: seq<T>)
    requires Permutation(s + [x], t + [x] + u)
    ensures Permutation(s, t + u)
  {
    forall y ensures multiset(s)[y] == multiset(t + u)[y] {
      assert multiset(s + [x])[y] == multiset(t + [x] + u)[y];
    }
  }

  lemma WithOne<T>(s: seq<T>, t: seq<T>, x: T, u: seq<T>)
    requires Permutation(s + t, u)
    ensures Permutation(s + [x] + t, u + [x])
  {
    forall y ensures multiset(s + [x] + t)[y] == multiset(u + [x])[y] {
      assert multiset(s + t)[y] == multiset(u)[y];
    }
  }

  /** Flattening the parts in another order permutes the elements. */
  lemma {:induction false} FlattenPermutes<T>(ss: seq<seq<T>>, tt: seq<seq<T>>)
    requires Permutation(ss, tt)
    ensures Permutation(Flatten(ss), Flatten(tt))
  {
    PermutationElements(ss, tt);
    if ss != [] {
      var init, last := ss[..|ss| - 1], ss[|ss| - 1];
      assert last in tt;
      var j :| 0 <= j < |tt| && tt[j] == last;
      var rest := tt[..j] + tt[j + 1..];
      assert ss == init + [last] && tt == tt[..j] + [last] + tt[j + 1..];
      WithoutOne(init, tt[..j], last, tt[j + 1..]);
      FlattenPermutes(init, rest);
      FlattenConcat(tt[..j], tt[j + 1..]);
      FlattenConcat(tt[..j] + [last], tt[j + 1..]);
      FlattenSnoc(tt[..j], last);
    }
  }

  lemma MoveToFront<T>(xs: seq<T>, x: T) returns (rest: seq<T>)
    requires x in xs
    ensures Permutation([x] + rest, xs)
  {
    var i :| 0 <= i < |xs| && xs[i] == x;
    rest := xs[..i] + xs[i + 1..];
    assert xs == xs[..i] + [x] + xs[i + 1..];
  }
}
