/** Merging the remote pack registry with the locally built entries. */
module Registry {
  import opened Options
  import opened Sequences

  datatype Pack = Pack(packId: Option<string>, version: Option<string>, body: string)

  predicate SameKey(p: Pack, q: Pack) {
    p.packId == q.packId && p.version == q.version
  }

  function OtherThan(q: Pack): Pack -> bool {
    (p: Pack) => !SameKey(p, q)
  }

  function NotIn(locals: seq<Pack>): Pack -> bool {
    (p: Pack) => forall q :: q in locals ==> !SameKey(p, q)
  }

  /** The local entries that no later local entry replaces, in order. */
  function LastOfEach(locals: seq<Pack>): seq<Pack> {
    if locals == [] then []
    else Filter(LastOfEach(locals[..|locals| - 1]), OtherThan(locals[|locals| - 1])) + [locals[|locals| - 1]]
  }

  function Readable(files: seq<Option<Pack>>): seq<Pack> {
    if files == [] then []
    else Readable(files[..|files| - 1]) +
         if files[|files| - 1].Some? then [files[|files| - 1].value] else []
  }

  lemma {:induction false} FilterAll<T(!new)>(s: seq<T>, p: T -> bool)
    requires forall x :: x in s ==> p(x)
    ensures Filter(s, p) == s
  {
    if s != [] {
      assert s == s[..|s| - 1] + [s[|s| - 1]];
      FilterAll(s[..|s| - 1], p);
    }
  }

  lemma {:induction false} FilterOnceMore(remote: seq<Pack>, locals: seq<Pack>, q: Pack)
    ensures Filter(Filter(remote, NotIn(locals)), OtherThan(q)) == Filter(remote, NotIn(locals + [q]))
  {
    if remote != [] {
      var init, last := remote[..|remote| - 1], remote[|remote| - 1];
      FilterOnceMore(init, locals, q);
      FilterConcat(Filter(init, NotIn(locals)), if NotIn(locals)(last) then [last] else [], OtherThan(q));
      NotInSnoc(locals, q, last);
    }
  }

  lemma NotInSnoc(locals: seq<Pack>, q: Pack, p: Pack)
    ensures NotIn(locals + [q])(p) <==> NotIn(locals)(p) && OtherThan(q)(p)
  {
  }

  lemma MergeStep(remote: seq<Pack>, locals: seq<Pack>, q: Pack)
    ensures Filter(Filter(remote, NotIn(locals)) + LastOfEach(locals), OtherThan(q)) + [q] ==
            Filter(remote, NotIn(locals + [q])) + LastOfEach(locals + [q])
  {
    FilterConcat(Filter(remote, NotIn(locals)), LastOfEach(locals), OtherThan(q));
    FilterOnceMore(remote, locals, q);
    assert (locals + [q])[..|locals|] == locals;
    hide Filter, NotIn, OtherThan;
  }

  lemma ReadableStep(files: seq<Option<Pack>>, n: nat)
    requires n < |files|
    ensures Readable(files[..n + 1]) == Readable(files[..n]) + if files[n].Some? then [files[n].value] else []
  {
    assert files[..n + 1][..n] == files[..n];
  }

  /** The merge loop: each readable local entry replaces the entries with its key. The result is the remote entries
      whose key no local entry has, in order, followed by the last local entry of each key. */
  method MergeRegistries(remote: seq<Pack>, files: seq<Option<Pack>>) returns (packs: seq<Pack>)
    ensures packs == Filter(remote, NotIn(Readable(files))) + LastOfEach(Readable(files))
  {
    packs := remote;
    FilterAll(remote, NotIn([]));
    for n := 0 to |files|
      invariant packs == Filter(remote, NotIn(Readable(files[..n]))) + LastOfEach(Readable(files[..n]))
    {
      hide Filter, NotIn, OtherThan, Readable, LastOfEach;
      ReadableStep(files, n);
      if files[n].Some? {
        var entry := files[n].value;
        MergeStep(remote, Readable(files[..n]), entry);
        packs := Filter(packs, OtherThan(entry));
        packs := packs + [entry];
      } else {
        assert Readable(files[..n]) + [] == Readable(files[..n]);
      }
    }
    assert files[..|files|] == files;
  }

  /** The last entry with the key of `p`. */
  function LastWithKey(locals: seq<Pack>, p: Pack): Option<Pack> {
    if locals == [] then None
    else if SameKey(locals[|locals| - 1], p) then Some(locals[|locals| - 1])
    else LastWithKey(locals[..|locals| - 1], p)
  }

  /** `LastOfEach` holds exactly the last local entry of each key. */
  lemma {:induction false} LastOfEachMembers(locals: seq<Pack>, p: Pack)
    ensures p in LastOfEach(locals) <==> LastWithKey(locals, p) == Some(p)
  {
    if locals != [] {
      var init, last := locals[..|locals| - 1], locals[|locals| - 1];
      LastOfEachMembers(init, p);
      LastWithKeyHasKey(init, p);
    }
  }

  lemma {:induction false} LastWithKeyHasKey(locals: seq<Pack>, p: Pack)
    ensures LastWithKey(locals, p).Some? ==>
              LastWithKey(locals, p).value in locals && SameKey(LastWithKey(locals, p).value, p)
    ensures LastWithKey(locals, p).None? <==> forall q :: q in locals ==> !SameKey(q, p)
  {
    if locals != [] {
      LastWithKeyHasKey(locals[..|locals| - 1], p);
      assert forall q :: q in locals <==> q in locals[..|locals| - 1] || q == locals[|locals| - 1];
    }
  }

  predicate DistinctKeys(packs: seq<Pack>) {
    forall i, j :: 0 <= i < j < |packs| ==> !SameKey(packs[i], packs[j])
  }

  lemma {:induction false} FilterKeepsDistinct(packs: seq<Pack>, p: Pack -> bool)
    requires DistinctKeys(packs)
    ensures DistinctKeys(Filter(packs, p))
  {
    if packs != [] {
      var init, last := packs[..|packs| - 1], packs[|packs| - 1];
      FilterKeepsDistinct(init, p);
      assert forall x :: x in Filter(init, p) ==> x in init;
      assert forall i :: 0 <= i < |Filter(init, p)| ==> Filter(init, p)[i] in init;
    }
  }

  lemma {:induction false} LastOfEachDistinct(locals: seq<Pack>)
    ensures DistinctKeys(LastOfEach(locals))
  {
    if locals != [] {
      var init, last := locals[..|locals| - 1], locals[|locals| - 1];
      LastOfEachDistinct(init);
      FilterKeepsDistinct(LastOfEach(init), OtherThan(last));
      var kept := Filter(LastOfEach(init), OtherThan(last));
      assert forall i :: 0 <= i < |kept| ==> kept[i] in kept;
    }
  }

  /** None of the entries before m replaces entry i. */
  predicate Survives(locals: seq<Pack>, i: nat, m: nat)
    requires i < m <= |locals|
  {
    forall j :: i < j < m ==> !SameKey(locals[j], locals[i])
  }

  /** The first n entries, in their order, that no later entry before m replaces. */
  function Survivors(locals: seq<Pack>, n: nat, m: nat): seq<Pack>
    requires n <= m <= |locals|
  {
    if n == 0 then [] else Survivors(locals, n - 1, m) + if Survives(locals, n - 1, m) then [locals[n - 1]] else []
  }

  lemma {:induction false} OneMoreReplacement(locals: seq<Pack>, n: nat, m: nat)
    requires n <= m < |locals|
    ensures Survivors(locals, n, m + 1) == Filter(Survivors(locals, n, m), OtherThan(locals[m]))
  {
    if n > 0 {
      hide Filter;
      OneMoreReplacement(locals, n - 1, m);
      var before, next := Survivors(locals, n - 1, m), locals[n - 1];
      assert Survives(locals, n - 1, m + 1) <==> Survives(locals, n - 1, m) && OtherThan(locals[m])(next);
      hide Survives, OtherThan;
      if Survives(locals, n - 1, m) {
        FilterSnoc(before, next, OtherThan(locals[m]));
      } else {
        assert before + [] == before;
      }
    }
  }

  /** `LastOfEach` lists, in their order, exactly the local entries that no later one replaces. */
  lemma LastOfEachInOrder(locals: seq<Pack>)
    ensures LastOfEach(locals) == Survivors(locals, |locals|, |locals|)
  {
    LastOfEachUpTo(locals, |locals|);
    assert locals[..|locals|] == locals;
  }

  lemma {:induction false} LastOfEachUpTo(locals: seq<Pack>, m: nat)
    requires m <= |locals|
    ensures LastOfEach(locals[..m]) == Survivors(locals, m, m)
  {
    if m > 0 {
      LastOfEachUpTo(locals, m - 1);
      OneMoreReplacement(locals, m - 1, m - 1);
      assert locals[..m][..m - 1] == locals[..m - 1];
    }
  }

  /** Local wins: each key that some local entry has occurs exactly once in the merge, with the last such entry; and
      an entry of any other key is there exactly as often as in the remote registry. */
  lemma LocalWins(remote: seq<Pack>, locals: seq<Pack>, p: Pack)
    ensures var packs := Filter(remote, NotIn(locals)) + LastOfEach(locals);
            multiset(packs)[p] ==
              if LastWithKey(locals, p).Some? then (if LastWithKey(locals, p).value == p then 1 else 0)
              else multiset(remote)[p]
  {
    FilterCount(remote, NotIn(locals), p);
    LastOfEachMembers(locals, p);
    LastWithKeyHasKey(locals, p);
    LastOfEachDistinct(locals);
    DistinctCount(LastOfEach(locals), p);
  }

  /** The entry is at some place behind which no other has its pack id and version. */
  ghost predicate LastOfPair(locals: seq<Pack>, p: Pack) {
    exists i :: 0 <= i < |locals| && locals[i] == p &&
                forall j :: i < j < |locals| ==> (locals[j].packId, locals[j].version) != (p.packId, p.version)
  }

  lemma {:induction false} LastWithKeyAt(locals: seq<Pack>, p: Pack)
    ensures LastWithKey(locals, p) == Some(p) <==> LastOfPair(locals, p)
  {
    if locals != [] {
      var init, last := locals[..|locals| - 1], locals[|locals| - 1];
      LastWithKeyAt(init, p);
      assert forall i :: 0 <= i < |init| ==> init[i] == locals[i];
      if last == p {
        assert locals[|locals| - 1] == p;
      }
    }
  }

  /** By pairs of pack id and version: an entry is in the merge exactly if it is a local one that no later local entry
      of its pair replaces, or a remote one of a pair that no local entry has. */
  lemma MergedByPair(remote: seq<Pack>, locals: seq<Pack>, p: Pack)
    ensures p in Filter(remote, NotIn(locals)) + LastOfEach(locals) <==>
              LastOfPair(locals, p) ||
              (p in remote && forall q :: q in locals ==> (q.packId, q.version) != (p.packId, p.version))
  {
    LastOfEachMembers(locals, p);
    LastWithKeyAt(locals, p);
    assert NotIn(locals)(p) <==> forall q :: q in locals ==> (q.packId, q.version) != (p.packId, p.version);
    hide LastOfEach, LastWithKey, NotIn;
  }

  lemma {:induction false} DistinctCount(packs: seq<Pack>, p: Pack)
    requires DistinctKeys(packs)
    ensures multiset(packs)[p] == if p in packs then 1 else 0
  {
    if packs != [] {
      var init, last := packs[..|packs| - 1], packs[|packs| - 1];
      DistinctCount(init, p);
      assert packs == init + [last];
    }
  }
}
