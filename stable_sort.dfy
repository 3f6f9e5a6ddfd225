/** A stable sort by an integer key, standing for `Itertools::sorted_by_key` (a stable sort).
    Stability is stated with a tag that records each element's input position: sorting
    elements whose tags increase yields an order strictly increasing by (key, tag), which
    determines the output uniquely, whatever stable algorithm produced it. */
module StableSort {

  /** `a` strictly precedes `b` by key, ties broken by tag. */
  predicate Before<T>(a: T, b: T, key: T -> int, tag: T -> int) {
    key(a) < key(b) || (key(a) == key(b) && tag(a) < tag(b))
  }

  predicate StrictlyOrdered<T>(s: seq<T>, key: T -> int, tag: T -> int) {
    forall i, j :: 0 <= i < j < |s| ==> Before(s[i], s[j], key, tag)
  }

  /** Insert `x` after every element whose key is not greater than its own. */
  function Insert<T>(x: T, s: seq<T>, key: T -> int): (r: seq<T>)
    ensures multiset(r) == multiset(s) + multiset{x}
  {
    if s == [] || key(x) < key(s[0]) then [x] + s
    else
      assert s == [s[0]] + s[1..];
      [s[0]] + Insert(x, s[1..], key)
  }

  /** Insertion sort, taking the elements front to back. */
  function SortByKey<T>(s: seq<T>, key: T -> int): (r: seq<T>)
    ensures multiset(r) == multiset(s)
  {
    if s == [] then []
    else
      assert s == s[..|s| - 1] + [s[|s| - 1]];
      Insert(s[|s| - 1], SortByKey(s[..|s| - 1], key), key)
  }

  /** Putting an element in front of an ordered sequence it precedes keeps it ordered. */
  lemma PrependOrdered<T>(y: T, t: seq<T>, key: T -> int, tag: T -> int)
    requires StrictlyOrdered(t, key, tag)
    requires forall j :: 0 <= j < |t| ==> Before(y, t[j], key, tag)
    ensures StrictlyOrdered([y] + t, key, tag)
  {
    var r := [y] + t;
    forall i, j | 0 <= i < j < |r| ensures Before(r[i], r[j], key, tag) {
      if i == 0 {
        assert r[j] == t[j - 1];
      } else {
        assert r[i] == t[i - 1] && r[j] == t[j - 1];
      }
    }
  }

  /** Inserting an element whose tag exceeds every tag of an ordered sequence keeps it
      ordered. */
  lemma {:induction false} InsertOrdered<T>(x: T, s: seq<T>, key: T -> int, tag: T -> int)
    requires StrictlyOrdered(s, key, tag)
    requires forall i :: 0 <= i < |s| ==> tag(s[i]) < tag(x)
    ensures StrictlyOrdered(Insert(x, s, key), key, tag)
  {
    if s == [] || key(x) < key(s[0]) {
      forall j | 0 <= j < |s| ensures Before(x, s[j], key, tag) {
        assert j == 0 || Before(s[0], s[j], key, tag);
      }
      PrependOrdered(x, s, key, tag);
    } else {
      var rest := Insert(x, s[1..], key);
      InsertOrdered(x, s[1..], key, tag);
      forall j | 0 <= j < |rest| ensures Before(s[0], rest[j], key, tag) {
        assert rest[j] in multiset(rest);
        if rest[j] != x {
          assert rest[j] in multiset(s[1..]);
          var k :| 0 <= k < |s[1..]| && s[1..][k] == rest[j];
          assert Before(s[0], s[k + 1], key, tag);
        }
      }
      PrependOrdered(s[0], rest, key, tag);
    }
  }

  /** Stability: sorting elements whose tags increase along the input gives a sequence that
      strictly increases by (key, tag); in particular keys never decrease and equal keys
      keep their input order. */
  lemma {:induction false} SortByKeyStable<T>(s: seq<T>, key: T -> int, tag: T -> int)
    requires forall i, j :: 0 <= i < j < |s| ==> tag(s[i]) < tag(s[j])
    ensures StrictlyOrdered(SortByKey(s, key), key, tag)
  {
    if s != [] {
      var init := s[..|s| - 1];
      var x := s[|s| - 1];
      SortByKeyStable(init, key, tag);
      var sorted := SortByKey(init, key);
      forall i | 0 <= i < |sorted| ensures tag(sorted[i]) < tag(x) {
        assert sorted[i] in multiset(init);
        var k :| 0 <= k < |init| && init[k] == sorted[i];
      }
      InsertOrdered(x, sorted, key, tag);
    }
  }
}
