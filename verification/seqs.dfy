/** Order-preserving selection from a sequence, the shape of `Array.prototype.filter`. */
module Seqs {

  function Filter<T(!new)>(keep: T -> bool, xs: seq<T>): (r: seq<T>)
    ensures |r| <= |xs|
    ensures forall i :: 0 <= i < |r| ==> keep(r[i])
  {
    if xs == [] then []
    else (if keep(xs[0]) then [xs[0]] else []) + Filter(keep, xs[1..])
  }

  /** Each kept element occurs as often as in the input, every other element not at all. */
  lemma {:induction false} FilterMultiset<T(!new)>(keep: T -> bool, xs: seq<T>)
    ensures forall x :: multiset(Filter(keep, xs))[x] == if keep(x) then multiset(xs)[x] else 0
  {
    if xs != [] {
      FilterMultiset(keep, xs[1..]);
      assert xs == [xs[0]] + xs[1..];
    }
  }

  lemma {:induction false} FilterConcat<T(!new)>(keep: T -> bool, a: seq<T>, b: seq<T>)
    ensures Filter(keep, a + b) == Filter(keep, a) + Filter(keep, b)
  {
    if a == [] {
      assert a + b == b;
    } else {
      assert (a + b)[0] == a[0];
      assert (a + b)[1..] == a[1..] + b;
      FilterConcat(keep, a[1..], b);
    }
  }

  lemma {:induction false} FilterAllKept<T(!new)>(keep: T -> bool, xs: seq<T>)
    requires forall i :: 0 <= i < |xs| ==> keep(xs[i])
    ensures Filter(keep, xs) == xs
  {
    if xs != [] { FilterAllKept(keep, xs[1..]); }
  }

  /** Two predicates that agree on every element select the same subsequence. */
  lemma {:induction false} FilterSamePredicate<T(!new)>(keep: T -> bool, keep': T -> bool, xs: seq<T>)
    requires forall i :: 0 <= i < |xs| ==> keep(xs[i]) == keep'(xs[i])
    ensures Filter(keep, xs) == Filter(keep', xs)
  {
    if xs != [] { FilterSamePredicate(keep, keep', xs[1..]); }
  }

  /** Selecting from a sequence with one more element at the end. */
  lemma FilterSnoc<T(!new)>(keep: T -> bool, xs: seq<T>, x: T)
    ensures Filter(keep, xs + [x]) == Filter(keep, xs) + (if keep(x) then [x] else [])
  {
    FilterConcat(keep, xs, [x]);
    assert [x][1..] == [];
  }

  /** The three parts of `a + b + [z]`, and where each element before the last comes from. */
  lemma ThreeParts<T>(a: seq<T>, b: seq<T>, z: T)
    ensures var s := a + b + [z];
      |s| == |a| + |b| + 1 && s[..|a|] == a && s[|a|..|s| - 1] == b && s[|s| - 1] == z &&
      forall i :: 0 <= i < |s| - 1 ==> s[i] in a || s[i] in b
  {
    var s := a + b + [z];
    assert s[..|a|] == a;
    assert s[|a|..|s| - 1] == b;
    assert forall i :: 0 <= i < |s| - 1 ==> s[i] == (a + b)[i];
  }
}
