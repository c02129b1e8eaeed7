/** Sequence operations shared by the models: `Array.prototype.filter`, the order-preserving
    sublist relation it satisfies, and the stable two-group partition a stable
    `Array.prototype.sort` with a two-valued comparator computes. */
module Seqs {

  /** `filter`: the elements satisfying p, in their original order. */
  function Filter<T(==)>(p: T -> bool, s: seq<T>): (r: seq<T>)
    ensures |r| <= |s|
    ensures forall i :: 0 <= i < |s| ==> (s[i] in r <==> p(s[i]))
    ensures forall i :: 0 <= i < |r| ==> r[i] in s && p(r[i])
  {
    if s == [] then [] else (if p(s[0]) then [s[0]] else []) + Filter(p, s[1..])
  }

  /** r is s with some elements left out, the rest in order. */
  predicate IsSubsequence<T(==)>(r: seq<T>, s: seq<T>)
    decreases |s|
  {
    if r == [] then true
    else if s == [] then false
    else if r[0] == s[0] then IsSubsequence(r[1..], s[1..])
    else IsSubsequence(r, s[1..])
  }

  lemma {:induction false} FilterIsSubsequence<T>(p: T -> bool, s: seq<T>)
    ensures IsSubsequence(Filter(p, s), s)
  {
    if s != [] {
      FilterIsSubsequence(p, s[1..]);
      if p(s[0]) {
        assert Filter(p, s)[1..] == Filter(p, s[1..]);
      } else {
        assert Filter(p, s) == Filter(p, s[1..]);
        SubsequenceSkip(Filter(p, s[1..]), s);
      }
    }
  }

  /** A subsequence of the tail is a subsequence of the whole. */
  lemma {:induction false} SubsequenceSkip<T>(r: seq<T>, s: seq<T>)
    requires s != [] && IsSubsequence(r, s[1..])
    ensures IsSubsequence(r, s)
    decreases |s|, 0
  {
    if r != [] && r[0] == s[0] {
      SubsequenceTail(r, s[1..]);
    }
  }

  /** Dropping the first element of a subsequence leaves a subsequence. */
  lemma {:induction false} SubsequenceTail<T>(r: seq<T>, s: seq<T>)
    requires r != [] && IsSubsequence(r, s)
    ensures IsSubsequence(r[1..], s)
    decreases |s|, 1
  {
    if r[0] == s[0] {
      SubsequenceSkip(r[1..], s);
    } else {
      SubsequenceTail(r, s[1..]);
      SubsequenceSkip(r[1..], s);
    }
  }

  /** Filtering with a predicate that holds everywhere keeps the sequence. */
  lemma {:induction false} FilterAll<T>(p: T -> bool, s: seq<T>)
    requires forall x :: x in s ==> p(x)
    ensures Filter(p, s) == s
  {
    if s != [] {
      assert s[0] in s;
      FilterAll(p, s[1..]);
      assert [s[0]] + s[1..] == s;
    }
  }

  lemma {:induction false} FilterAppend<T>(p: T -> bool, a: seq<T>, b: seq<T>)
    ensures Filter(p, a + b) == Filter(p, a) + Filter(p, b)
  {
    if a != [] {
      assert (a + b)[1..] == a[1..] + b;
      FilterAppend(p, a[1..], b);
    } else {
      assert a + b == b;
    }
  }

  /** `filter` keeps every element satisfying p exactly as often as it occurs, and no
      other element. */
  lemma {:induction false} FilterMultiset<T>(p: T -> bool, s: seq<T>)
    ensures forall x :: multiset(Filter(p, s))[x] == if p(x) then multiset(s)[x] else 0
  {
    if s != [] {
      FilterMultiset(p, s[1..]);
      assert s == [s[0]] + s[1..];
      assert multiset(s) == multiset{s[0]} + multiset(s[1..]);
      FilterCons(p, s);
    }
  }

  /** The complement of a predicate. */
  function Not<T>(p: T -> bool): T -> bool {
    x => !p(x)
  }

  /** A stable sort by a comparator that only tells "p first" from "p last": the elements
      satisfying p, in order, then the others, in order. */
  function StablePartition<T(==)>(p: T -> bool, s: seq<T>): seq<T> {
    Filter(p, s) + Filter(Not(p), s)
  }

  /** The partition rearranges the sequence: the same elements, as often. */
  lemma {:induction false} StablePartitionIsPermutation<T>(p: T -> bool, s: seq<T>)
    ensures multiset(StablePartition(p, s)) == multiset(s)
  {
    if s != [] {
      var x, rest := s[0], s[1..];
      var a, b := Filter(p, rest), Filter(Not(p), rest);
      assert multiset(a + b) == multiset(rest) by {
        StablePartitionIsPermutation(p, rest);
      }
      assert (p(x) ==> Filter(p, s) == [x] + a && Filter(Not(p), s) == b)
          && (!p(x) ==> Filter(p, s) == a && Filter(Not(p), s) == [x] + b) by {
        NotApply(p, x);
        FilterCons(p, s);
        FilterCons(Not(p), s);
      }
      PermutationStep(x, a, b, Filter(p, s), Filter(Not(p), s), rest, p(x));
      assert s == [x] + rest;
    }
  }

  /** Putting x in front of one of two groups that rearrange `rest` gives groups that
      rearrange `[x] + rest`. */
  lemma PermutationStep<T>(x: T, a: seq<T>, b: seq<T>, fa: seq<T>, fb: seq<T>, rest: seq<T>, first: bool)
    requires multiset(a + b) == multiset(rest)
    requires first ==> fa == [x] + a && fb == b
    requires !first ==> fa == a && fb == [x] + b
    ensures multiset(fa + fb) == multiset([x] + rest)
  {
    if first {
      assert fa + fb == [x] + (a + b);
    } else {
      assert multiset(fa + fb) == multiset(a) + multiset{x} + multiset(b);
    }
  }

  lemma NotApply<T>(p: T -> bool, x: T)
    ensures Not(p)(x) == !p(x)
  {
  }

  lemma FilterCons<T>(p: T -> bool, s: seq<T>)
    requires s != []
    ensures Filter(p, s) == (if p(s[0]) then [s[0]] else []) + Filter(p, s[1..])
  {
  }

  /** In the partition no element outside p precedes an element in p, and each group
      keeps its original order. */
  lemma StablePartitionOrdered<T>(p: T -> bool, s: seq<T>)
    ensures var r := StablePartition(p, s);
      forall i, j :: 0 <= i < j < |r| && p(r[j]) ==> p(r[i])
    ensures IsSubsequence(Filter(p, s), s) && IsSubsequence(Filter(Not(p), s), s)
  {
    var a := Filter(p, s);
    var b := Filter(Not(p), s);
    var r := a + b;
    forall k | |a| <= k < |r|
      ensures !p(r[k])
    {
      assert r[k] == b[k - |a|];
      assert Not(p)(b[k - |a|]);
    }
    assert forall k :: 0 <= k < |a| ==> p(r[k]);
    FilterIsSubsequence(p, s);
    FilterIsSubsequence(Not(p), s);
  }

  lemma {:induction false} FilterNone<T>(p: T -> bool, s: seq<T>)
    requires forall x :: x in s ==> !p(x)
    ensures Filter(p, s) == []
  {
    if s != [] {
      assert s[0] in s;
      FilterNone(p, s[1..]);
    }
  }

  /** Each group of the partition is the group of the original, in the same order. */
  lemma StablePartitionKeepsGroups<T>(p: T -> bool, s: seq<T>)
    ensures Filter(p, StablePartition(p, s)) == Filter(p, s)
    ensures Filter(Not(p), StablePartition(p, s)) == Filter(Not(p), s)
  {
    var a := Filter(p, s);
    var b := Filter(Not(p), s);
    FilterAppend(p, a, b);
    FilterAppend(Not(p), a, b);
    FilterAll(p, a);
    FilterAll(Not(p), b);
    FilterNone(p, b);
    FilterNone(Not(p), a);
    assert a + [] == a && [] + b == b;
  }
}
