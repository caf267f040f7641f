/** Generic sequence operations: list comprehensions with a condition,
    order-preserving subsequences, flattening, de-duplication and a
    descending insertion sort standing for Python's
    `sorted(..., reverse=True)`. */
module Seqs {

  /** `[x for x in s if p(x)]`. */
  function Filter<T>(s: seq<T>, p: T -> bool): (r: seq<T>)
    ensures |r| <= |s|
    ensures forall x :: x in r ==> x in s && p(x)
    ensures forall i :: 0 <= i < |s| && p(s[i]) ==> s[i] in r
  {
    if s == [] then []
    else
      var f := Filter(s[..|s| - 1], p);
      assert forall i :: 0 <= i < |s| - 1 ==> s[..|s| - 1][i] == s[i];
      if p(s[|s| - 1]) then f + [s[|s| - 1]] else f
  }

  lemma FilterSnoc<T>(s: seq<T>, x: T, p: T -> bool)
    ensures Filter(s + [x], p) == if p(x) then Filter(s, p) + [x] else Filter(s, p)
  {
    assert (s + [x])[..|s|] == s;
  }

  /** The filter keeps the multiplicity of every element it keeps. */
  lemma {:induction false} FilterMultiset<T>(s: seq<T>, p: T -> bool)
    ensures multiset(Filter(s, p)) <= multiset(s)
    ensures forall x :: p(x) ==> multiset(Filter(s, p))[x] == multiset(s)[x]
    ensures forall x :: !p(x) ==> multiset(Filter(s, p))[x] == 0
  {
    if s != [] {
      var f := s[..|s| - 1];
      assert s == f + [s[|s| - 1]];
      FilterMultiset(f, p);
      FilterSnoc(f, s[|s| - 1], p);
    }
  }

  /** `a` is `b` with some elements removed, the rest in their order. */
  predicate Subseq<T(==)>(a: seq<T>, b: seq<T>)
    decreases |b|
  {
    if a == [] then true
    else if b == [] then false
    else (a[|a| - 1] == b[|b| - 1] && Subseq(a[..|a| - 1], b[..|b| - 1])) || Subseq(a, b[..|b| - 1])
  }

  lemma SubseqExtend<T>(a: seq<T>, b: seq<T>, x: T)
    requires Subseq(a, b)
    ensures Subseq(a, b + [x]) && Subseq(a + [x], b + [x])
  {
    assert (b + [x])[..|b|] == b;
    assert (a + [x])[..|a|] == a;
  }

  lemma {:induction false} FilterSubseq<T>(s: seq<T>, p: T -> bool)
    ensures Subseq(Filter(s, p), s)
  {
    if s != [] {
      var f := s[..|s| - 1];
      assert s == f + [s[|s| - 1]];
      FilterSubseq(f, p);
      FilterSnoc(f, s[|s| - 1], p);
      SubseqExtend(Filter(f, p), f, s[|s| - 1]);
    }
  }

  predicate NoDup<T(==)>(s: seq<T>) {
    forall i, j :: 0 <= i < j < |s| ==> s[i] != s[j]
  }

  /** `list(set(s))`, with the order fixed to that of first occurrence. */
  function Distinct<T(==)>(s: seq<T>): (r: seq<T>)
    ensures NoDup(r)
    ensures forall x :: x in r ==> x in s
    ensures forall x :: x in s ==> x in r
  {
    if s == [] then []
    else
      var f := s[..|s| - 1];
      var d := Distinct(f);
      assert forall x :: x in f ==> x in s;
      assert s == f + [s[|s| - 1]];
      if s[|s| - 1] in f then d else d + [s[|s| - 1]]
  }

  /** `ls[0] + ls[1] + ...`: the lists one after the other. */
  function Flatten<T>(ls: seq<seq<T>>): seq<T> {
    if ls == [] then [] else Flatten(ls[..|ls| - 1]) + ls[|ls| - 1]
  }

  lemma FlattenSnoc<T>(ls: seq<seq<T>>, x: seq<T>)
    ensures Flatten(ls + [x]) == Flatten(ls) + x
  {
    assert (ls + [x])[..|ls|] == ls;
  }

  function Map<A, B>(f: A -> B, s: seq<A>): (r: seq<B>)
    ensures |r| == |s|
    ensures forall i :: 0 <= i < |s| ==> r[i] == f(s[i])
  {
    seq(|s|, i requires 0 <= i < |s| => f(s[i]))
  }

  lemma MapTakeSnoc<A, B>(f: A -> B, s: seq<A>, j: nat)
    requires j < |s|
    ensures Map(f, s[..j + 1]) == Map(f, s[..j]) + [f(s[j])]
  {
    assert forall i :: 0 <= i < j ==> s[..j + 1][i] == s[..j][i];
  }

  lemma FlattenMapTakeSnoc<A, B>(f: A -> seq<B>, s: seq<A>, j: nat)
    requires j < |s|
    ensures Flatten(Map(f, s[..j + 1])) == Flatten(Map(f, s[..j])) + f(s[j])
  {
    MapTakeSnoc(f, s, j);
    FlattenSnoc(Map(f, s[..j]), f(s[j]));
  }

  lemma {:induction false} FlattenAppend<T>(a: seq<seq<T>>, b: seq<seq<T>>)
    ensures Flatten(a + b) == Flatten(a) + Flatten(b)
    decreases |b|
  {
    if b == [] {
      assert a + b == a;
    } else {
      var f := b[..|b| - 1];
      assert a + b == (a + f) + [b[|b| - 1]];
      assert b == f + [b[|b| - 1]];
      FlattenAppend(a, f);
      FlattenSnoc(a + f, b[|b| - 1]);
      FlattenSnoc(f, b[|b| - 1]);
    }
  }

  lemma MapAppend<A, B>(f: A -> B, a: seq<A>, b: seq<A>)
    ensures Map(f, a + b) == Map(f, a) + Map(f, b)
  {
    assert forall i :: 0 <= i < |a| ==> (a + b)[i] == a[i];
    assert forall i :: |a| <= i < |a| + |b| ==> (a + b)[i] == b[i - |a|];
  }

  lemma TakeSnoc<T>(s: seq<T>, j: nat)
    requires j < |s|
    ensures s[..j + 1] == s[..j] + [s[j]]
  {
  }

  lemma TakeAll<T>(s: seq<T>)
    ensures s[..|s|] == s
  {
  }

  lemma LastSplit<T>(s: seq<T>)
    requires s != []
    ensures s[..|s| - 1] + [s[|s| - 1]] == s
  {
  }

  /** A prefix of a non-increasing list is a sub-multiset of it, is itself
      non-increasing, and nothing after it is above anything in it. */
  lemma SortedPrefix<T>(s: seq<T>, n: nat, le: (T, T) -> bool)
    requires n <= |s| && SortedDesc(s, le)
    ensures multiset(s[..n]) <= multiset(s)
    ensures SortedDesc(s[..n], le)
    ensures forall i, j :: 0 <= i < n <= j < |s| ==> le(s[j], s[..n][i])
  {
    assert s == s[..n] + s[n..];
  }

  lemma FilterTakeSnoc<T>(s: seq<T>, j: nat, p: T -> bool)
    requires j < |s|
    ensures Filter(s[..j + 1], p) == if p(s[j]) then Filter(s[..j], p) + [s[j]] else Filter(s[..j], p)
  {
    TakeSnoc(s, j);
    FilterSnoc(s[..j], s[j], p);
  }

  lemma {:induction false} FlattenCons<T>(x: seq<T>, ls: seq<seq<T>>)
    ensures Flatten([x] + ls) == x + Flatten(ls)
    decreases |ls|
  {
    if ls == [] {
      assert [x] == [] + [x];
      FlattenSnoc([], x);
    } else {
      var f := ls[..|ls| - 1];
      assert ls == f + [ls[|ls| - 1]];
      assert [x] + ls == ([x] + f) + [ls[|ls| - 1]];
      FlattenCons(x, f);
      FlattenSnoc([x] + f, ls[|ls| - 1]);
      FlattenSnoc(f, ls[|ls| - 1]);
    }
  }

  /** Sum of the lengths of the lists. */
  function TotalLength<T>(ls: seq<seq<T>>): nat {
    if ls == [] then 0 else TotalLength(ls[..|ls| - 1]) + |ls[|ls| - 1]|
  }

  lemma {:induction false} FlattenLength<T>(ls: seq<seq<T>>)
    ensures |Flatten(ls)| == TotalLength(ls)
  {
    if ls != [] { FlattenLength(ls[..|ls| - 1]); }
  }

  /** Python's `s[:n]` for any integer `n`; a negative `n` counts from the end. */
  function PySliceTo<T>(s: seq<T>, n: int): (r: seq<T>)
    ensures |r| <= |s| && r == s[..|r|]
    ensures n >= 0 ==> |r| == if n <= |s| then n else |s|
    ensures n < 0 ==> |r| == if |s| + n >= 0 then |s| + n else 0
  {
    if n >= 0 then (if n <= |s| then s[..n] else s)
    else if |s| + n >= 0 then s[..|s| + n] else []
  }

  ghost predicate Total<T(!new)>(le: (T, T) -> bool) {
    forall a, b :: le(a, b) || le(b, a)
  }

  ghost predicate Transitive<T(!new)>(le: (T, T) -> bool) {
    forall a, b, c :: le(a, b) && le(b, c) ==> le(a, c)
  }

  /** Non-increasing with respect to the preorder `le`. */
  ghost predicate SortedDesc<T>(s: seq<T>, le: (T, T) -> bool) {
    forall i, j :: 0 <= i < j < |s| ==> le(s[j], s[i])
  }

  /** An element not below the head of a sorted sequence can go in front. */
  lemma SortedDescCons<T(!new)>(a: T, s: seq<T>, le: (T, T) -> bool)
    requires Transitive(le) && SortedDesc(s, le)
    requires s != [] ==> le(s[0], a)
    ensures SortedDesc([a] + s, le)
  {
    var r := [a] + s;
    forall i, j | 0 <= i < j < |r|
      ensures le(r[j], r[i])
    {
      assert r[j] == s[j - 1];
      if i == 0 {
        if j > 1 {
          assert le(s[j - 1], s[0]);
        }
      } else {
        assert r[i] == s[i - 1];
      }
    }
  }

  /** Puts `x` in front of the first element that is not above it. */
  function InsertDesc<T(!new)>(x: T, s: seq<T>, le: (T, T) -> bool): (r: seq<T>)
    requires Total(le) && Transitive(le)
    requires SortedDesc(s, le)
    ensures multiset(r) == multiset(s) + multiset{x}
    ensures SortedDesc(r, le)
    ensures |r| == |s| + 1 && (r[0] == x || (s != [] && r[0] == s[0]))
  {
    if s == [] then [x]
    else if le(s[0], x) then
      SortedDescCons(x, s, le);
      [x] + s
    else
      assert s == [s[0]] + s[1..];
      var rest := InsertDesc(x, s[1..], le);
      assert le(rest[0], s[0]) by {
        if rest[0] == x { assert le(x, s[0]); } else { assert rest[0] == s[1]; }
      }
      SortedDescCons(s[0], rest, le);
      [s[0]] + rest
  }

  /** Python's `sorted(s, key=..., reverse=True)` as an insertion sort. */
  function SortDesc<T(!new)>(s: seq<T>, le: (T, T) -> bool): (r: seq<T>)
    requires Total(le) && Transitive(le)
    ensures multiset(r) == multiset(s)
    ensures |r| == |s|
    ensures SortedDesc(r, le)
  {
    if s == [] then []
    else
      assert s == [s[0]] + s[1..];
      var r := InsertDesc(s[0], SortDesc(s[1..], le), le);
      assert |r| == |multiset(r)|;
      r
  }
}
