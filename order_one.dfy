/** Order-one crossover (`src/crossover/order_one.rs`). The two random indices are passed in
    as drawn; the source orders them so that the segment is `[start, end)`. */
module OrderOne {
  import opened Seqs
  import opened Chromosomes

  /** The segment bounds after the source's swap: the smaller draw first. */
  function Segment(a: nat, b: nat): (s: (nat, nat))
    ensures s.0 <= s.1
    ensures (s.0 == a && s.1 == b) || (s.0 == b && s.1 == a)
  {
    if a > b then (b, a) else (a, b)
  }

  /** The genes of `filler` whose values are not in `donor[start..end]`, in filler's order. */
  function Contribution<A(==,!new)>(donor: seq<A>, filler: seq<A>, start: nat, end: nat): (r: seq<A>)
    requires start <= end <= |donor|
    ensures forall x :: multiset(r)[x] == if x in donor[start..end] then 0 else multiset(filler)[x]
  {
    Filter(filler, Elements(donor[start..end]))
  }

  /** The donor's segment in place, the filler's contribution split around it. */
  function Child<A(==,!new)>(donor: seq<A>, filler: seq<A>, start: nat, end: nat): (c: seq<A>)
    requires start <= end <= |donor|
    requires start <= |Contribution(donor, filler, start, end)|   // split_at panics otherwise
    ensures |c| == |Contribution(donor, filler, start, end)| + (end - start)
    ensures c[start..end] == donor[start..end]
    ensures c[..start] + c[end..] == Contribution(donor, filler, start, end)
  {
    var rest := Contribution(donor, filler, start, end);
    var c := rest[..start] + donor[start..end] + rest[start..];
    assert c[..start] == rest[..start] && c[end..] == rest[start..];
    assert rest == rest[..start] + rest[start..];
    c
  }

  /** What the source needs in order not to panic: both draws index the father, the segment
      fits the mother, and both filtered lists can be split at `start`. Since both draws are
      below the father's length, the segment never reaches his last gene. */
  predicate Drawable<A(==,!new)>(father: Chromosome<A>, mother: Chromosome<A>, a: nat, b: nat): (r: bool)
    ensures r ==> 0 < |father.genes| && Segment(a, b).1 < |father.genes|
  {
    var (start, end) := Segment(a, b);
    && a < |father.genes| && b < |father.genes|
    && end <= |mother.genes|
    && start <= |Contribution(father.genes, mother.genes, start, end)|
    && start <= |Contribution(mother.genes, father.genes, start, end)|
  }

  function Crossover<A(==,!new)>(father: Chromosome<A>, mother: Chromosome<A>, a: nat, b: nat)
    : (r: (Chromosome<A>, Chromosome<A>))
    requires Drawable(father, mother, a, b)
    ensures Fresh(r.0) && Fresh(r.1)
    ensures var (start, end) := Segment(a, b);
      && |r.0.genes| == |Contribution(father.genes, mother.genes, start, end)| + (end - start)
      && |r.1.genes| == |Contribution(mother.genes, father.genes, start, end)| + (end - start)
    ensures var (start, end) := Segment(a, b);
      && r.0.genes[start..end] == father.genes[start..end]
      && r.0.genes[..start] + r.0.genes[end..] == Filter(mother.genes, Elements(father.genes[start..end]))
      && r.1.genes[start..end] == mother.genes[start..end]
      && r.1.genes[..start] + r.1.genes[end..] == Filter(father.genes, Elements(mother.genes[start..end]))
  {
    var (start, end) := Segment(a, b);
    (New(Child(father.genes, mother.genes, start, end)), New(Child(mother.genes, father.genes, start, end)))
  }

  /** For a duplicate-free donor and a filler with the same values, the contribution and the
      segment together hold exactly the donor's values. */
  lemma ContributionComplementsSegment<A(!new)>(donor: seq<A>, filler: seq<A>, start: nat, end: nat)
    requires Distinct(donor) && multiset(filler) == multiset(donor)
    requires start <= end <= |donor|
    ensures multiset(Contribution(donor, filler, start, end)) + multiset(donor[start..end]) == multiset(donor)
  {
    var segment := donor[start..end];
    var excluded := Elements(segment);
    var rest := Contribution(donor, filler, start, end);
    DistinctMultiplicity(donor);
    assert Distinct(segment);
    DistinctMultiplicity(segment);
    assert donor == donor[..start] + segment + donor[end..];
    forall x ensures (multiset(rest) + multiset(segment))[x] == multiset(donor)[x] {
      if x in excluded {
        assert x in segment;
        assert x in donor;
      } else {
        assert x !in segment;
      }
    }
  }

  /** For a duplicate-free donor and a filler with the same values, the child is a
      rearrangement of the donor (and the split at `start` cannot fail). */
  lemma ChildIsPermutation<A(!new)>(donor: seq<A>, filler: seq<A>, start: nat, end: nat)
    requires Distinct(donor) && multiset(filler) == multiset(donor)
    requires start <= end <= |donor|
    ensures start <= |Contribution(donor, filler, start, end)|
    ensures multiset(Child(donor, filler, start, end)) == multiset(donor)
  {
    var segment := donor[start..end];
    var rest := Contribution(donor, filler, start, end);
    ContributionComplementsSegment(donor, filler, start, end);
    assert |rest| + |segment| == |donor|;
    var c := Child(donor, filler, start, end);
    assert c == rest[..start] + segment + rest[start..];
    assert rest == rest[..start] + rest[start..];
    assert multiset(c) == multiset(rest[..start]) + multiset(segment) + multiset(rest[start..]);
  }

  /** On two rearrangements of the same distinct values, order-one never fails, and each child
      is again a rearrangement of them, with no value repeated or missing. */
  lemma OnPermutations<A(!new)>(father: Chromosome<A>, mother: Chromosome<A>, a: nat, b: nat)
    requires a < |father.genes| && b < |father.genes|
    requires Distinct(father.genes) && multiset(mother.genes) == multiset(father.genes)
    ensures Drawable(father, mother, a, b)
    ensures var r := Crossover(father, mother, a, b);
      && multiset(r.0.genes) == multiset(father.genes) && multiset(r.1.genes) == multiset(father.genes)
      && |r.0.genes| == |father.genes| && |r.1.genes| == |father.genes|
      && Distinct(r.0.genes) && Distinct(r.1.genes)
  {
    var (start, end) := Segment(a, b);
    assert |mother.genes| == |multiset(mother.genes)| == |father.genes|;
    DistinctByMultiset(father.genes, mother.genes);
    ChildIsPermutation(father.genes, mother.genes, start, end);
    ChildIsPermutation(mother.genes, father.genes, start, end);
    var r := Crossover(father, mother, a, b);
    assert |r.0.genes| == |multiset(r.0.genes)|;
    assert |r.1.genes| == |multiset(r.1.genes)|;
    DistinctByMultiset(father.genes, r.0.genes);
    DistinctByMultiset(father.genes, r.1.genes);
  }

  /** With an empty segment the filler is copied unchanged. */
  lemma EmptySegmentChild<A(!new)>(donor: seq<A>, filler: seq<A>, a: nat)
    requires a <= |donor| && a <= |filler|
    ensures Contribution(donor, filler, a, a) == filler
    ensures Child(donor, filler, a, a) == filler
  {
    assert Elements(donor[a..a]) == {};
    FilterNothing(filler);
    var c := Child(donor, filler, a, a);
    assert c == c[..a] + c[a..];
  }

  /** An empty segment (`start == end`) hands back the parents' genes, exchanged. */
  lemma EmptySegment<A(!new)>(father: Chromosome<A>, mother: Chromosome<A>, a: nat)
    requires a < |father.genes| && a <= |mother.genes|
    ensures Drawable(father, mother, a, a)
    ensures Crossover(father, mother, a, a).0.genes == mother.genes
    ensures Crossover(father, mother, a, a).1.genes == father.genes
  {
    EmptySegmentChild(father.genes, mother.genes, a);
    EmptySegmentChild(mother.genes, father.genes, a);
  }
}
