/** Sequence facts shared by the crossover, selection and mutation models. */
module Seqs {

  function Min(a: int, b: int): int { if a < b then a else b }

  function Max(a: int, b: int): int { if a < b then b else a }

  /** No two positions of `s` hold equal values. */
  predicate Distinct<T(==)>(s: seq<T>) {
    forall i, j :: 0 <= i < j < |s| ==> s[i] != s[j]
  }

  /** The values occurring in `s`, as a set (what collecting into a hash set keeps). */
  function Elements<T(==)>(s: seq<T>): set<T> {
    set x | x in s
  }

  /** A duplicate-free sequence has as many elements as it has distinct values. */
  lemma {:induction false} DistinctCardinality<T>(s: seq<T>)
    requires Distinct(s)
    ensures |Elements(s)| == |s|
  {
    if s != [] {
      var init := s[..|s| - 1];
      assert s == init + [s[|s| - 1]];
      assert Distinct(init);
      DistinctCardinality(init);
      assert s[|s| - 1] !in Elements(init);
      assert Elements(s) == Elements(init) + {s[|s| - 1]};
    }
  }

  /** In a duplicate-free sequence every value occurs at most once. */
  lemma {:induction false} DistinctMultiplicity<T>(s: seq<T>)
    requires Distinct(s)
    ensures forall x :: multiset(s)[x] == if x in s then 1 else 0
  {
    if s != [] {
      assert s == [s[0]] + s[1..];
      assert Distinct(s[1..]);
      DistinctMultiplicity(s[1..]);
      assert s[0] !in s[1..];
    }
  }

  /** A value at two different positions occurs at least twice. */
  lemma RepeatedMultiplicity<T>(s: seq<T>, i: nat, j: nat)
    requires i < j < |s| && s[i] == s[j]
    ensures multiset(s)[s[i]] >= 2
  {
    assert s == s[..j] + s[j..];
    assert s[i] in s[..j];
    assert s[j] in s[j..];
    assert multiset(s) == multiset(s[..j]) + multiset(s[j..]);
  }

  /** Rearranging a duplicate-free sequence leaves it duplicate-free. */
  lemma DistinctByMultiset<T>(s: seq<T>, t: seq<T>)
    requires Distinct(s) && multiset(t) == multiset(s)
    ensures Distinct(t)
  {
    DistinctMultiplicity(s);
    forall i, j | 0 <= i < j < |t| ensures t[i] != t[j] {
      if t[i] == t[j] {
        RepeatedMultiplicity(t, i, j);
        assert false;
      }
    }
  }

  /** The elements of `s` whose values are not in `excluded`, in their original order. */
  function Filter<T(==,!new)>(s: seq<T>, excluded: set<T>): (r: seq<T>)
    ensures forall x :: multiset(r)[x] == if x in excluded then 0 else multiset(s)[x]
    ensures |r| <= |s|
  {
    if s == [] then []
    else
      assert s == [s[0]] + s[1..];
      if s[0] in excluded then Filter(s[1..], excluded)
      else [s[0]] + Filter(s[1..], excluded)
  }

  /** Excluding nothing keeps everything. */
  lemma {:induction false} FilterNothing<T(!new)>(s: seq<T>)
    ensures Filter(s, {}) == s
  {
    if s != [] {
      FilterNothing(s[1..]);
    }
  }

  /** The values left by a filter are those of the input outside the excluded set. */
  lemma FilterElements<T(!new)>(s: seq<T>, excluded: set<T>)
    ensures Elements(Filter(s, excluded)) == Elements(s) - excluded
  {
    var r := Filter(s, excluded);
    forall x ensures x in Elements(r) <==> x in Elements(s) - excluded {
      assert x in r <==> multiset(r)[x] > 0;
      assert x in s <==> multiset(s)[x] > 0;
    }
  }

  /** The first occurrence of every value of `s`, in order. */
  function Dedup<T(==)>(s: seq<T>): (r: seq<T>)
    ensures Distinct(r)
    ensures Elements(r) == Elements(s)
  {
    if s == [] then []
    else
      var init := s[..|s| - 1];
      var last := s[|s| - 1];
      var r' := Dedup(init);
      assert s == init + [last];
      assert Elements(s) == Elements(init) + {last};
      if last in r' then r' else r' + [last]
  }

  /** `[0, 1, ..., n - 1]`. */
  function Range(n: nat): (r: seq<nat>)
    ensures |r| == n
    ensures forall i :: 0 <= i < n ==> r[i] == i
  {
    seq(n, i requires 0 <= i < n => i as nat)
  }

  /** `p` lists the positions `0 .. n - 1`, each exactly once (the bounds are spelt out
      so that indexing with `p` is visibly safe). */
  predicate IsPermutation(p: seq<nat>, n: nat) {
    && |p| == n
    && (forall i :: 0 <= i < |p| ==> p[i] < n)
    && multiset(p) == multiset(Range(n))
  }

  /** The elements of `s` at the positions listed in `p`. */
  function Permute<T>(s: seq<T>, p: seq<nat>): seq<T>
    requires forall i :: 0 <= i < |p| ==> p[i] < |s|
  {
    seq(|p|, i requires 0 <= i < |p| => s[p[i]])
  }

  /** Deleting the entry `n - 1` from a permutation of `0 .. n - 1` leaves a permutation
      of `0 .. n - 2`. */
  lemma PermutationRemoveTop(p: seq<nat>, n: nat, k: nat)
    requires n > 0 && IsPermutation(p, n) && k < n && p[k] == n - 1
    ensures IsPermutation(p[..k] + p[k + 1..], n - 1)
  {
    var p' := p[..k] + p[k + 1..];
    var top: multiset<nat> := multiset{n - 1};
    assert p == p[..k] + [p[k]] + p[k + 1..];
    assert multiset(p) == multiset(p') + top;
    assert Range(n) == Range(n - 1) + [n - 1];
    assert multiset(Range(n)) == multiset(Range(n - 1)) + top;
    forall x ensures multiset(p')[x] == multiset(Range(n - 1))[x] {
      assert (multiset(p') + top)[x] == (multiset(Range(n - 1)) + top)[x];
    }
    assert multiset(p') == multiset(Range(n - 1));
    forall i | 0 <= i < |p'| ensures p'[i] < n - 1 {
      assert p'[i] in multiset(Range(n - 1));
      assert p'[i] in Range(n - 1);
    }
  }

  /** Reordering by a permutation whose entry `k` is the last position: the last element
      lands at `k` and the rest follow the reduced permutation. */
  lemma PermuteRemoveTop<T>(s: seq<T>, p: seq<nat>, k: nat)
    requires |s| > 0 && k < |p| && p[k] == |s| - 1
    requires forall i :: 0 <= i < |p| ==> p[i] < |s|
    requires IsPermutation(p[..k] + p[k + 1..], |s| - 1)
    ensures multiset(Permute(s, p)) == multiset(Permute(s[..|s| - 1], p[..k] + p[k + 1..])) + multiset{s[|s| - 1]}
  {
    var a := Permute(s[..|s| - 1], p[..k] + p[k + 1..]);
    assert Permute(s, p) == a[..k] + [s[|s| - 1]] + a[k..];
    assert a == a[..k] + a[k..];
  }

  /** Some entry of a non-empty permutation is the last position. */
  lemma FindTop(p: seq<nat>, n: nat) returns (k: nat)
    requires n > 0 && IsPermutation(p, n)
    ensures k < n && p[k] == n - 1
  {
    assert Range(n)[n - 1] == n - 1;
    assert n - 1 in multiset(Range(n));
    assert n - 1 in multiset(p);
    k :| 0 <= k < |p| && p[k] == n - 1;
  }

  lemma MultisetSnoc<T>(s: seq<T>)
    requires |s| > 0
    ensures multiset(s) == multiset(s[..|s| - 1]) + multiset{s[|s| - 1]}
  {
    assert s == s[..|s| - 1] + [s[|s| - 1]];
  }

  /** The induction step: if reordering the first `n - 1` elements by the reduced
      permutation keeps them, reordering all `n` by `p` keeps all of them. */
  lemma PermuteStep<T>(s: seq<T>, p: seq<nat>, k: nat)
    requires |s| > 0 && IsPermutation(p, |s|) && k < |s| && p[k] == |s| - 1
    requires IsPermutation(p[..k] + p[k + 1..], |s| - 1)
    requires multiset(Permute(s[..|s| - 1], p[..k] + p[k + 1..])) == multiset(s[..|s| - 1])
    ensures multiset(Permute(s, p)) == multiset(s)
  {
    PermuteRemoveTop(s, p, k);
    MultisetSnoc(s);
  }

  /** Reordering by a permutation keeps every value with its multiplicity. */
  lemma {:induction false} PermutePreservesMultiset<T>(s: seq<T>, p: seq<nat>)
    requires IsPermutation(p, |s|)
    ensures multiset(Permute(s, p)) == multiset(s)
  {
    if |s| > 0 {
      var k := FindTop(p, |s|);
      PermutationRemoveTop(p, |s|, k);
      PermutePreservesMultiset(s[..|s| - 1], p[..k] + p[k + 1..]);
      PermuteStep(s, p, k);
    }
  }
}
