/** One generation of the engine in `src/genetic.rs`: evaluation and sorting, selection of
    parents and leftover survivors, pairing, the engine's own single-point crossover, refill
    and shuffle mutation. Every random draw and every call into the user's problem is a
    parameter. */
module Genetic {
  import opened Wrappers
  import opened Seqs
  import opened Chromosomes
  import opened StableSort
  import Elitism
  import Tournament

  /** The parent count is rounded up to an even number so that parents pair off. */
  function EvenParentCount(n: nat): (r: nat)
    ensures r % 2 == 0
    ensures r == n || r == n + 1
  {
    if n % 2 == 0 then n else n + 1
  }

  /** The first population: one fresh chromosome per genome drawn from the problem. */
  function InitialPopulation<A>(genomes: seq<seq<A>>): (p: seq<Chromosome<A>>)
    ensures |p| == |genomes|
    ensures forall i :: 0 <= i < |p| ==> Fresh(p[i]) && p[i].genes == genomes[i]
  {
    seq(|genomes|, i requires 0 <= i < |genomes| => New(genomes[i]))
  }

  // ---------------------------------------------------------------- evaluate

  /** What `evaluate` does to one chromosome: store the problem's fitness, then age it. */
  function Mark<A>(fitness: Chromosome<A> -> int, c: Chromosome<A>): (r: Chromosome<A>)
    ensures r.fitness == Some(fitness(c)) && r.age == c.age + 1
    ensures r.genes == c.genes && r.size == c.size
  {
    var e := SetFitness(c, fitness(c));
    e.(age := e.age + 1)
  }

  /** Each marked chromosome paired with its input position, which the sort carries along
      without looking at it. */
  function Tagged<A>(fitness: Chromosome<A> -> int, p: seq<Chromosome<A>>): seq<(nat, Chromosome<A>)> {
    seq(|p|, i requires 0 <= i < |p| => (i, Mark(fitness, p[i])))
  }

  /** The sort key, `get_fitness`; every tagged chromosome has one, so the default is never used. */
  function TagKey<A>(t: (nat, Chromosome<A>)): int {
    match t.1.fitness
    case Some(f) => f
    case None => 0
  }

  function TagPosition<A>(t: (nat, Chromosome<A>)): int {
    t.0
  }

  function Reverse<T>(s: seq<T>): seq<T> {
    seq(|s|, i requires 0 <= i < |s| => s[|s| - 1 - i])
  }

  /** Every entry of `t` is the marked input chromosome at the position it is tagged with. */
  ghost predicate Marked<A>(fitness: Chromosome<A> -> int, p: seq<Chromosome<A>>, t: seq<(nat, Chromosome<A>)>) {
    forall k :: 0 <= k < |t| ==> t[k].0 < |p| && t[k].1 == Mark(fitness, p[t[k].0])
  }

  lemma SortedTaggedFacts<A>(fitness: Chromosome<A> -> int, p: seq<Chromosome<A>>)
    ensures var sorted := SortByKey(Tagged(fitness, p), TagKey);
      |sorted| == |p| && Marked(fitness, p, sorted)
  {
    var t := Tagged(fitness, p);
    var sorted := SortByKey(t, TagKey);
    assert |sorted| == |multiset(sorted)| == |multiset(t)| == |t|;
    forall i | 0 <= i < |sorted| ensures sorted[i].0 < |p| && sorted[i].1 == Mark(fitness, p[sorted[i].0]) {
      assert sorted[i] in multiset(t);
      var j :| 0 <= j < |t| && t[j] == sorted[i];
    }
  }

  lemma ReverseMarked<A>(fitness: Chromosome<A> -> int, p: seq<Chromosome<A>>, t: seq<(nat, Chromosome<A>)>)
    requires Marked(fitness, p, t)
    ensures Marked(fitness, p, Reverse(t))
  {
    var d := Reverse(t);
    forall k | 0 <= k < |d| ensures d[k].0 < |p| && d[k].1 == Mark(fitness, p[d[k].0]) {
      assert d[k] == t[|t| - 1 - k];
    }
  }

  lemma ReverseOrdered<T>(s: seq<T>, key: T -> int, tag: T -> int)
    requires StrictlyOrdered(s, key, tag)
    ensures forall k, l :: 0 <= k < l < |Reverse(s)| ==> Before(Reverse(s)[l], Reverse(s)[k], key, tag)
  {
    var d := Reverse(s);
    forall k, l | 0 <= k < l < |d| ensures Before(d[l], d[k], key, tag) {
      assert d[k] == s[|s| - 1 - k] && d[l] == s[|s| - 1 - l];
    }
  }

  lemma ReversedSortOrdered<A>(fitness: Chromosome<A> -> int, p: seq<Chromosome<A>>)
    ensures var d := Reverse(SortByKey(Tagged(fitness, p), TagKey));
      forall k, l :: 0 <= k < l < |d| ==> Before(d[l], d[k], TagKey, TagPosition)
  {
    var t := Tagged(fitness, p);
    assert forall i, j :: 0 <= i < j < |t| ==> TagPosition(t[i]) < TagPosition(t[j]);
    SortByKeyStable(t, TagKey, TagPosition);
    ReverseOrdered(SortByKey(t, TagKey), TagKey, TagPosition);
  }

  /** `sorted_by_key(get_fitness)` followed by `rev`, on tagged chromosomes: every input
      chromosome marked, fitness non-increasing, and equal fitness in reverse input order. */
  function Descending<A>(fitness: Chromosome<A> -> int, p: seq<Chromosome<A>>): (r: seq<(nat, Chromosome<A>)>)
    ensures |r| == |p|
    ensures Marked(fitness, p, r)
    ensures forall k, l :: 0 <= k < l < |r| ==> Before(r[l], r[k], TagKey, TagPosition)
  {
    var sorted := SortByKey(Tagged(fitness, p), TagKey);
    SortedTaggedFacts(fitness, p);
    ReverseMarked(fitness, p, sorted);
    ReversedSortOrdered(fitness, p);
    Reverse(sorted)
  }

  /** Evaluate every chromosome and sort the population best-first. */
  function Evaluate<A>(fitness: Chromosome<A> -> int, p: seq<Chromosome<A>>): (r: seq<Chromosome<A>>)
    ensures |r| == |p|
    ensures Evaluated(r)
    ensures SortedByFitness(r)
  {
    var d := Descending(fitness, p);
    var r := seq(|d|, k requires 0 <= k < |d| => d[k].1);
    assert forall k :: 0 <= k < |d| ==> r[k].fitness.Some? && TagKey(d[k]) == GetFitness(r[k]);
    r
  }

  /** The input position of each chromosome of `Evaluate(fitness, p)`. */
  ghost function EvaluationOrder<A>(fitness: Chromosome<A> -> int, p: seq<Chromosome<A>>): seq<nat> {
    var d := Descending(fitness, p);
    seq(|d|, k requires 0 <= k < |d| => d[k].0)
  }

  /** `evaluate` returns its input reordered: position k holds input chromosome `order[k]`
      with its fitness set and its age increased by one, `order` lists every input position
      exactly once, and chromosomes of equal fitness come out in reverse input order (a
      stable ascending sort followed by `rev`). */
  lemma EvaluateReorders<A>(fitness: Chromosome<A> -> int, p: seq<Chromosome<A>>)
    ensures var r := Evaluate(fitness, p);
      var order := EvaluationOrder(fitness, p);
      && |order| == |p|
      && (forall k :: 0 <= k < |order| ==> order[k] < |p|)
      && Distinct(order)
      && (forall k :: 0 <= k < |r| ==> r[k] == Mark(fitness, p[order[k]]))
      && (forall k, l :: 0 <= k < l < |r| && GetFitness(r[k]) == GetFitness(r[l]) ==> order[k] > order[l])
  {
    var d := Descending(fitness, p);
    var r := Evaluate(fitness, p);
    var order := EvaluationOrder(fitness, p);
    assert forall k :: 0 <= k < |d| ==> TagKey(d[k]) == GetFitness(r[k]);
    forall k, l | 0 <= k < l < |order| ensures order[k] != order[l] {
      assert Before(d[l], d[k], TagKey, TagPosition);
    }
  }

  /** The chromosome returned at termination is the first after evaluation: no member of the
      evaluated population is fitter. */
  lemma BestIsFittest<A>(fitness: Chromosome<A> -> int, p: seq<Chromosome<A>>)
    requires |p| > 0
    ensures var r := Evaluate(fitness, p);
      forall i :: 0 <= i < |r| ==> GetFitness(r[0]) >= GetFitness(r[i])
  {
    var r := Evaluate(fitness, p);
    forall i | 0 < i < |r| ensures GetFitness(r[0]) >= GetFitness(r[i]) {
    }
  }

  /** Evaluation leaves genes and sizes alone. */
  lemma EvaluatePreservesGenomeLength<A>(fitness: Chromosome<A> -> int, p: seq<Chromosome<A>>, length: nat)
    requires GenomeLength(p, length)
    ensures GenomeLength(Evaluate(fitness, p), length)
  {
    EvaluateReorders(fitness, p);
  }

  // ---------------------------------------------------------------- selection

  /** `order` is one way of iterating the hash-set difference population \ parents: every
      value of the difference exactly once. */
  predicate EnumeratesDifference<A(==)>(order: seq<Chromosome<A>>, population: seq<Chromosome<A>>, parents: seq<Chromosome<A>>) {
    Distinct(order) && Elements(order) == Elements(population) - Elements(parents)
  }

  /** The leftover survivors: the first `population_size - |parents|` values of the difference,
      in the set's iteration order. */
  function Leftover<A(==)>(population: seq<Chromosome<A>>, parents: seq<Chromosome<A>>, populationSize: nat,
                           order: seq<Chromosome<A>>): (r: seq<Chromosome<A>>)
    requires |parents| <= populationSize    // usize subtraction
    requires EnumeratesDifference(order, population, parents)
    ensures |r| == Min(populationSize - |parents|, |Elements(population) - Elements(parents)|)
    ensures |r| <= populationSize - |parents|
    ensures Distinct(r)
    ensures forall c :: c in r ==> c in population && c !in parents
  {
    DistinctCardinality(order);
    var r := order[..Min(populationSize - |parents|, |order|)];
    assert forall c :: c in r ==> c in Elements(order);
    r
  }

  /** One iteration order of the difference: population order, first occurrences. */
  function Difference<A(==,!new)>(population: seq<Chromosome<A>>, parents: seq<Chromosome<A>>): (order: seq<Chromosome<A>>)
    ensures EnumeratesDifference(order, population, parents)
  {
    FilterElements(population, Elements(parents));
    Dedup(Filter(population, Elements(parents)))
  }

  /** `chunks(2)` then `collect_tuple`: consecutive pairs, and `None` for a trailing odd parent. */
  function Pairs<T>(parents: seq<T>): (r: seq<Option<(T, T)>>)
    ensures |r| == (|parents| + 1) / 2
    ensures forall i :: 0 <= i < |r| ==>
      r[i] == if 2 * i + 1 < |parents| then Some((parents[2 * i], parents[2 * i + 1])) else None
  {
    if |parents| == 0 then []
    else if |parents| == 1 then [None]
    else [Some((parents[0], parents[1]))] + Pairs(parents[2..])
  }

  // ---------------------------------------------------------------- crossover

  /** The engine's inline single-point crossover: each child is its prefix parent with the
      genes exchanged after the cut, keeping that parent's cached fitness, age and size. */
  function Cross<A>(father: Chromosome<A>, mother: Chromosome<A>, cx: nat): (r: (Chromosome<A>, Chromosome<A>))
    requires cx <= |father.genes| && cx <= |mother.genes|
    ensures r.0.genes == father.genes[..cx] + mother.genes[cx..]
    ensures r.1.genes == mother.genes[..cx] + father.genes[cx..]
    ensures r.0.fitness == father.fitness && r.0.age == father.age && r.0.size == father.size
    ensures r.1.fitness == mother.fitness && r.1.age == mother.age && r.1.size == mother.size
  {
    (father.(genes := father.genes[..cx] + mother.genes[cx..]),
     mother.(genes := mother.genes[..cx] + father.genes[cx..]))
  }

  /** Cut `cuts[i]` is the one drawn for pair `i`, within `0..father.get_size()` and within
      both gene vectors (`split_off`). */
  predicate CutsFit<A>(pairs: seq<Option<(Chromosome<A>, Chromosome<A>)>>, cuts: seq<nat>) {
    && |cuts| >= |pairs|
    && forall i :: 0 <= i < |pairs| && pairs[i].Some? ==>
         && cuts[i] < GetSize(pairs[i].value.0)
         && cuts[i] <= |pairs[i].value.0.genes| && cuts[i] <= |pairs[i].value.1.genes|
  }

  function ChildrenOf<A>(pair: Option<(Chromosome<A>, Chromosome<A>)>, cx: nat): seq<Chromosome<A>>
    requires pair.Some? ==> cx <= |pair.value.0.genes| && cx <= |pair.value.1.genes|
  {
    match pair
    case None => []
    case Some((father, mother)) => [Cross(father, mother, cx).0, Cross(father, mother, cx).1]
  }

  /** The fold's accumulator after the given pairs. */
  function Offspring<A>(pairs: seq<Option<(Chromosome<A>, Chromosome<A>)>>, cuts: seq<nat>): (r: seq<Chromosome<A>>)
    requires CutsFit(pairs, cuts)
    ensures |r| % 2 == 0 && |r| <= 2 * |pairs|
  {
    if pairs == [] then []
    else Offspring(pairs[..|pairs| - 1], cuts) + ChildrenOf(pairs[|pairs| - 1], cuts[|pairs| - 1])
  }

  method Crossover<A>(pairs: seq<Option<(Chromosome<A>, Chromosome<A>)>>, cuts: seq<nat>)
    returns (offspring: seq<Chromosome<A>>)
    requires CutsFit(pairs, cuts)
    ensures offspring == Offspring(pairs, cuts)
  {
    offspring := [];
    var i := 0;
    while i < |pairs|
      invariant 0 <= i <= |pairs|
      invariant offspring == Offspring(pairs[..i], cuts)
    {
      assert pairs[..i + 1][..i] == pairs[..i];
      if pairs[i].Some? {
        var father, mother := pairs[i].value.0, pairs[i].value.1;
        var cx := cuts[i];
        var fatherSplit := father.genes[cx..];
        father := father.(genes := father.genes[..cx]);
        var motherSplit := mother.genes[cx..];
        mother := mother.(genes := mother.genes[..cx]);
        father := father.(genes := father.genes + motherSplit);
        mother := mother.(genes := mother.genes + fatherSplit);
        offspring := offspring + [father, mother];
      }
      i := i + 1;
    }
    assert pairs[..|pairs|] == pairs;
  }

  /** Children `2 * i` and `2 * i + 1` of `o` are parents `2 * i` and `2 * i + 1` crossed at `cuts[i]`. */
  ghost predicate CrossedPair<A>(o: seq<Chromosome<A>>, parents: seq<Chromosome<A>>, cuts: seq<nat>, i: nat) {
    && 2 * i + 1 < |o| && 2 * i + 1 < |parents| && i < |cuts|
    && cuts[i] <= |parents[2 * i].genes| && cuts[i] <= |parents[2 * i + 1].genes|
    && o[2 * i] == Cross(parents[2 * i], parents[2 * i + 1], cuts[i]).0
    && o[2 * i + 1] == Cross(parents[2 * i], parents[2 * i + 1], cuts[i]).1
  }

  /** Paired parents produce exactly two children per full pair: no more children than
      parents. */
  lemma {:induction false} OffspringCount<A>(parents: seq<Chromosome<A>>, cuts: seq<nat>, k: nat)
    requires CutsFit(Pairs(parents), cuts) && k <= |Pairs(parents)|
    ensures |Offspring(Pairs(parents)[..k], cuts)| == 2 * Min(k, |parents| / 2)
  {
    var pairs := Pairs(parents);
    if k > 0 {
      assert pairs[..k][..k - 1] == pairs[..k - 1];
      OffspringCount(parents, cuts, k - 1);
    }
  }

  /** Children 2i and 2i+1 are the parents 2i and 2i+1 crossed at the cut drawn for pair i. */
  lemma {:induction false} OffspringPositions<A>(parents: seq<Chromosome<A>>, cuts: seq<nat>, k: nat)
    requires CutsFit(Pairs(parents), cuts) && k <= |Pairs(parents)|
    ensures var o := Offspring(Pairs(parents)[..k], cuts);
      forall i :: 0 <= i && 2 * i < |o| ==> CrossedPair(o, parents, cuts, i)
  {
    var pairs := Pairs(parents);
    if k > 0 {
      assert pairs[..k][..k - 1] == pairs[..k - 1];
      OffspringPositions(parents, cuts, k - 1);
      OffspringCount(parents, cuts, k - 1);
      PairAppended(Offspring(pairs[..k - 1], cuts), parents, cuts, k - 1);
    }
  }

  /** Appending the children of pair `j` to the children of the pairs before it keeps every
      child at its position. */
  lemma PairAppended<A>(prev: seq<Chromosome<A>>, parents: seq<Chromosome<A>>, cuts: seq<nat>, j: nat)
    requires CutsFit(Pairs(parents), cuts) && j < |Pairs(parents)|
    requires |prev| == 2 * Min(j, |parents| / 2)
    requires forall i :: 0 <= i && 2 * i < |prev| ==> CrossedPair(prev, parents, cuts, i)
    ensures var o := prev + ChildrenOf(Pairs(parents)[j], cuts[j]);
      forall i :: 0 <= i && 2 * i < |o| ==> CrossedPair(o, parents, cuts, i)
  {
    var children := ChildrenOf(Pairs(parents)[j], cuts[j]);
    var o := prev + children;
    var h := |parents| / 2;
    assert 2 * h <= |parents| <= 2 * h + 1;
    assert children != [] ==> Pairs(parents)[j].Some? && 2 * j + 1 < |parents|;
    forall i | 0 <= i && 2 * i < |o| ensures CrossedPair(o, parents, cuts, i) {
      if 2 * i < |prev| {
        CrossedPairExtends(prev, children, parents, cuts, i);
      } else {
        assert children != [] && |children| == 2;
        assert j < h && |prev| == 2 * j;
        assert i == j;
        LastPairCrossed(prev, parents, cuts, i);
      }
    }
  }

  lemma CrossedPairExtends<A>(prev: seq<Chromosome<A>>, extra: seq<Chromosome<A>>, parents: seq<Chromosome<A>>,
                              cuts: seq<nat>, i: nat)
    requires CrossedPair(prev, parents, cuts, i)
    ensures CrossedPair(prev + extra, parents, cuts, i)
  {
    assert (prev + extra)[2 * i] == prev[2 * i] && (prev + extra)[2 * i + 1] == prev[2 * i + 1];
  }

  lemma LastPairCrossed<A>(prev: seq<Chromosome<A>>, parents: seq<Chromosome<A>>, cuts: seq<nat>, i: nat)
    requires CutsFit(Pairs(parents), cuts) && i < |Pairs(parents)|
    requires |prev| == 2 * i && 2 * i + 1 < |parents|
    ensures CrossedPair(prev + ChildrenOf(Pairs(parents)[i], cuts[i]), parents, cuts, i)
  {
    assert Pairs(parents)[i] == Some((parents[2 * i], parents[2 * i + 1]));
  }

  /** Children of parents with `length` genes have `length` genes, and so does their size. */
  lemma {:induction false} OffspringGenomeLength<A>(pairs: seq<Option<(Chromosome<A>, Chromosome<A>)>>, cuts: seq<nat>, length: nat)
    requires CutsFit(pairs, cuts)
    requires forall i :: 0 <= i < |pairs| && pairs[i].Some? ==>
      HasLength(pairs[i].value.0, length) && HasLength(pairs[i].value.1, length)
    ensures GenomeLength(Offspring(pairs, cuts), length)
  {
    if pairs != [] {
      var init := pairs[..|pairs| - 1];
      OffspringGenomeLength(init, cuts, length);
      var last := pairs[|pairs| - 1];
      var children := ChildrenOf(last, cuts[|pairs| - 1]);
      assert GenomeLength(children, length) by {
        if last.Some? {
          var cx := cuts[|pairs| - 1];
          assert HasLength(last.value.0, length) && HasLength(last.value.1, length);
          assert children == [Cross(last.value.0, last.value.1, cx).0, Cross(last.value.0, last.value.1, cx).1];
        }
      }
      GenomeLengthAppend(Offspring(init, cuts), children, length);
    }
  }

  lemma GenomeLengthAppend<A>(a: seq<Chromosome<A>>, b: seq<Chromosome<A>>, length: nat)
    requires GenomeLength(a, length) && GenomeLength(b, length)
    ensures GenomeLength(a + b, length)
  {
    forall i | 0 <= i < |a + b| ensures HasLength((a + b)[i], length) {
      if i >= |a| {
        assert (a + b)[i] == b[i - |a|];
      }
    }
  }

  /** Whatever is drawn from a population of `length`-gene chromosomes has `length` genes. */
  lemma MembersGenomeLength<A>(sub: seq<Chromosome<A>>, population: seq<Chromosome<A>>, length: nat)
    requires GenomeLength(population, length)
    requires forall c :: c in sub ==> c in population
    ensures GenomeLength(sub, length)
  {
    forall i | 0 <= i < |sub| ensures HasLength(sub[i], length) {
      assert sub[i] in population;
    }
  }

  // ---------------------------------------------------------------- refill and mutation

  /** What refilling produces: the offspring, then the leftover survivors, then one fresh
      chromosome per genome for as many places as are still missing. */
  function Refilled<A>(offspring: seq<Chromosome<A>>, leftover: seq<Chromosome<A>>, populationSize: nat,
                       genomes: seq<seq<A>>): (r: seq<Chromosome<A>>)
    requires populationSize <= |offspring| + |leftover| + |genomes|
    ensures |r| == Max(populationSize, |offspring| + |leftover|)
    ensures r[..|offspring| + |leftover|] == offspring + leftover
    ensures forall k :: |offspring| + |leftover| <= k < |r| ==>
      k - |offspring| - |leftover| < |genomes| && r[k] == New(genomes[k - |offspring| - |leftover|])
  {
    var base := |offspring| + |leftover|;
    var missing := if populationSize > base then populationSize - base else 0;
    var r := offspring + leftover + InitialPopulation(genomes[..missing]);
    assert r[..base] == offspring + leftover;
    r
  }

  /** Append the leftover survivors, then push fresh chromosomes (one genome drawn per push)
      until the population is back to `populationSize`. */
  method Refill<A>(offspring: seq<Chromosome<A>>, leftover: seq<Chromosome<A>>, populationSize: nat, genomes: seq<seq<A>>)
    returns (population: seq<Chromosome<A>>)
    requires populationSize <= |offspring| + |leftover| + |genomes|
    ensures population == Refilled(offspring, leftover, populationSize, genomes)
  {
    population := offspring + leftover;
    var base := |population|;
    var i := 0;
    assert genomes[..0] == [];
    while |population| < populationSize
      invariant |population| == base + i <= Max(populationSize, base)
      invariant population == offspring + leftover + InitialPopulation(genomes[..i])
      decreases populationSize - |population|
    {
      assert InitialPopulation(genomes[..i + 1]) == InitialPopulation(genomes[..i]) + [New(genomes[i])];
      population := population + [New(genomes[i])];
      i := i + 1;
    }
  }

  /** A shuffle, when the coin says so: the genes are reordered by `perm`; everything else,
      fitness and age included, is kept. */
  function MutateOne<A>(c: Chromosome<A>, flip: bool, perm: seq<nat>): (r: Chromosome<A>)
    requires flip ==> IsPermutation(perm, |c.genes|)
    ensures r.fitness == c.fitness && r.age == c.age && r.size == c.size
    ensures |r.genes| == |c.genes| && multiset(r.genes) == multiset(c.genes)
    ensures !flip ==> r == c
    ensures flip ==> r.genes == Permute(c.genes, perm)
  {
    if flip then
      PermutePreservesMultiset(c.genes, perm);
      c.(genes := Permute(c.genes, perm))
    else c
  }

  /** `flips[i]` is the outcome of `random() <= mutation_rate` for chromosome i; `perms[i]` is
      the order its shuffle puts the genes in. */
  function Mutate<A>(p: seq<Chromosome<A>>, flips: seq<bool>, perms: seq<seq<nat>>): (r: seq<Chromosome<A>>)
    requires |flips| >= |p| && |perms| >= |p|
    requires forall i :: 0 <= i < |p| && flips[i] ==> IsPermutation(perms[i], |p[i].genes|)
    ensures |r| == |p|
    ensures forall i :: 0 <= i < |p| ==>
      && r[i].fitness == p[i].fitness && r[i].age == p[i].age && r[i].size == p[i].size
      && |r[i].genes| == |p[i].genes| && multiset(r[i].genes) == multiset(p[i].genes)
      && (!flips[i] ==> r[i] == p[i])
  {
    seq(|p|, i requires 0 <= i < |p| => MutateOne(p[i], flips[i], perms[i]))
  }

  /** Pairing `length`-gene parents, with the cut drawn for each full pair below `length`,
      makes at most as many children as parents, every one of `length` genes. */
  lemma OffspringFromParents<A>(parents: seq<Chromosome<A>>, cuts: seq<nat>, length: nat)
    requires GenomeLength(parents, length)
    requires |cuts| >= |parents| && forall i :: 0 <= i < |cuts| && 2 * i + 1 < |parents| ==> cuts[i] < length
    ensures CutsFit(Pairs(parents), cuts)
    ensures |Offspring(Pairs(parents), cuts)| == 2 * (|parents| / 2)
    ensures GenomeLength(Offspring(Pairs(parents), cuts), length)
  {
    var pairs := Pairs(parents);
    forall i | 0 <= i < |pairs| && pairs[i].Some?
      ensures HasLength(pairs[i].value.0, length) && HasLength(pairs[i].value.1, length)
    {
      assert pairs[i].value == (parents[2 * i], parents[2 * i + 1]);
    }
    OffspringCount(parents, cuts, |pairs|);
    assert pairs[..|pairs|] == pairs;
    OffspringGenomeLength(pairs, cuts, length);
  }

  lemma RefilledGenomeLength<A>(offspring: seq<Chromosome<A>>, leftover: seq<Chromosome<A>>, populationSize: nat,
                                genomes: seq<seq<A>>, length: nat)
    requires populationSize <= |offspring| + |leftover| + |genomes|
    requires GenomeLength(offspring, length) && GenomeLength(leftover, length)
    requires forall i :: 0 <= i < |genomes| ==> |genomes[i]| == length
    ensures GenomeLength(Refilled(offspring, leftover, populationSize, genomes), length)
  {
    var next := Refilled(offspring, leftover, populationSize, genomes);
    var base := |offspring| + |leftover|;
    GenomeLengthAppend(offspring, leftover, length);
    forall k | 0 <= k < |next| ensures HasLength(next[k], length) {
      if k < base {
        assert next[k] == next[..base][k];
      }
    }
  }

  /** Where each chromosome of the next population comes from: the first `|offspring|` are
      children of the crossover, the next `|leftover|` are the leftover survivors, the
      rest are fresh chromosomes of the extra genomes; each is then possibly shuffled, which
      keeps its alleles, its cached fitness and its age. */
  lemma NextPopulationParts<A>(offspring: seq<Chromosome<A>>, leftover: seq<Chromosome<A>>, populationSize: nat,
                               genomes: seq<seq<A>>, flips: seq<bool>, perms: seq<seq<nat>>, length: nat)
    requires |offspring| + |leftover| <= populationSize <= |genomes|
    requires GenomeLength(Refilled(offspring, leftover, populationSize, genomes), length)
    requires |flips| >= populationSize && |perms| >= populationSize
    requires forall i :: 0 <= i < |perms| ==> IsPermutation(perms[i], length)
    ensures var next := Mutate(Refilled(offspring, leftover, populationSize, genomes), flips, perms);
      var base := |offspring| + |leftover|;
      && |next| == populationSize
      && (forall k :: 0 <= k < |offspring| ==>
            multiset(next[k].genes) == multiset(offspring[k].genes)
            && next[k].fitness == offspring[k].fitness && next[k].age == offspring[k].age)
      && (forall k :: |offspring| <= k < base ==>
            multiset(next[k].genes) == multiset(leftover[k - |offspring|].genes)
            && next[k].fitness == leftover[k - |offspring|].fitness && next[k].age == leftover[k - |offspring|].age)
      && (forall k :: base <= k < |next| ==>
            multiset(next[k].genes) == multiset(genomes[k - base]) && next[k].fitness.None? && next[k].age == 0)
  {
    var r := Refilled(offspring, leftover, populationSize, genomes);
    var base := |offspring| + |leftover|;
    forall k | 0 <= k < base ensures r[k] == (offspring + leftover)[k] {
      assert r[k] == r[..base][k];
    }
  }

  // ---------------------------------------------------------------- one generation

  /** From the selected parents to the two halves of the next population: the children
      of the paired parents and the leftover survivors. */
  method Survivors<A(==,!new)>(evaluated: seq<Chromosome<A>>, parents: seq<Chromosome<A>>, populationSize: nat,
                               length: nat, cuts: seq<nat>)
    returns (offspring: seq<Chromosome<A>>, leftover: seq<Chromosome<A>>)
    requires GenomeLength(evaluated, length)
    requires |parents| <= populationSize && forall c :: c in parents ==> c in evaluated
    requires |cuts| >= |parents| && forall i :: 0 <= i < |cuts| && 2 * i + 1 < |parents| ==> cuts[i] < length
    ensures CutsFit(Pairs(parents), cuts) && offspring == Offspring(Pairs(parents), cuts)
    ensures leftover == Leftover(evaluated, parents, populationSize, Difference(evaluated, parents))
    ensures |offspring| <= |parents| && |offspring| + |leftover| <= populationSize
    ensures GenomeLength(offspring, length) && GenomeLength(leftover, length)
  {
    MembersGenomeLength(parents, evaluated, length);
    leftover := Leftover(evaluated, parents, populationSize, Difference(evaluated, parents));
    MembersGenomeLength(leftover, evaluated, length);
    OffspringFromParents(parents, cuts, length);
    offspring := Crossover(Pairs(parents), cuts);
  }

  /** Refill with fresh chromosomes up to `populationSize`, then mutate. */
  method Regrow<A>(offspring: seq<Chromosome<A>>, leftover: seq<Chromosome<A>>, populationSize: nat, length: nat,
                   genomes: seq<seq<A>>, flips: seq<bool>, perms: seq<seq<nat>>)
    returns (next: seq<Chromosome<A>>)
    requires |offspring| + |leftover| <= populationSize
    requires GenomeLength(offspring, length) && GenomeLength(leftover, length)
    requires |genomes| >= populationSize && forall i :: 0 <= i < |genomes| ==> |genomes[i]| == length
    requires |flips| >= populationSize && |perms| >= populationSize
    requires forall i :: 0 <= i < |perms| ==> IsPermutation(perms[i], length)
    ensures GenomeLength(Refilled(offspring, leftover, populationSize, genomes), length)
    ensures next == Mutate(Refilled(offspring, leftover, populationSize, genomes), flips, perms)
    ensures |next| == populationSize && GenomeLength(next, length)
  {
    next := Refill(offspring, leftover, populationSize, genomes);
    RefilledGenomeLength(offspring, leftover, populationSize, genomes, length);
    next := Mutate(next, flips, perms);
  }

  /** The selection strategy only ever returns members of the population it is given. */
  ghost predicate SelectsMembers<A(!new)>(select: (seq<Chromosome<A>>, nat) -> seq<Chromosome<A>>) {
    forall q, k, c :: c in select(q, k) ==> c in q
  }

  /** `next` is what one generation makes of the evaluated population and the selected
      parents: the mutation of (the offspring of the paired parents, then the leftover
      survivors, then fresh chromosomes of the extra genomes). */
  ghost predicate Successor<A(!new)>(evaluated: seq<Chromosome<A>>, parents: seq<Chromosome<A>>, populationSize: nat,
                                   length: nat, cuts: seq<nat>, genomes: seq<seq<A>>, flips: seq<bool>,
                                   perms: seq<seq<nat>>, next: seq<Chromosome<A>>)
  {
    && |parents| <= populationSize <= |genomes|
    && CutsFit(Pairs(parents), cuts)
    && var offspring := Offspring(Pairs(parents), cuts);
       var leftover := Leftover(evaluated, parents, populationSize, Difference(evaluated, parents));
       && |offspring| + |leftover| <= populationSize <= |flips|
       && populationSize <= |perms|
       && GenomeLength(Refilled(offspring, leftover, populationSize, genomes), length)
       && (forall i :: 0 <= i < |perms| ==> IsPermutation(perms[i], length))
       && next == Mutate(Refilled(offspring, leftover, populationSize, genomes), flips, perms)
  }

  datatype Outcome<A> =
    | Terminated(best: Chromosome<A>)
    | Continue(population: seq<Chromosome<A>>, generation: nat)

  /** One pass of the loop in `evolve`, from the evaluation of `population` to the mutated
      next population. `rounded` is `round(len * selection_rate)`, evened into the parent
      count; `terminate` is the problem's predicate (temperature left out), `select` the
      configured strategy; cuts, genomes, coin flips and shuffles are the random draws. */
  method Generation<A(==,!new)>(
    populationSize: nat, rounded: nat, population: seq<Chromosome<A>>, generation: nat, length: nat,
    fitness: Chromosome<A> -> int,
    terminate: (seq<Chromosome<A>>, nat) -> bool,
    select: (seq<Chromosome<A>>, nat) -> seq<Chromosome<A>>,
    cuts: seq<nat>, genomes: seq<seq<A>>, flips: seq<bool>, perms: seq<seq<nat>>)
    returns (outcome: Outcome<A>)
    requires |population| == populationSize > 0
    requires GenomeLength(population, length)
    requires SelectsMembers(select)
    requires |select(Evaluate(fitness, population), EvenParentCount(rounded))| <= populationSize   // usize subtraction
    // one cut per pair; those of full pairs come from `gen_range(0..get_size())`
    requires |cuts| >= populationSize
    requires forall i :: 0 <= i < |cuts| && 2 * i + 1 < |select(Evaluate(fitness, population), EvenParentCount(rounded))| ==>
      cuts[i] < length
    requires |genomes| >= populationSize && forall i :: 0 <= i < |genomes| ==> |genomes[i]| == length
    requires |flips| >= populationSize && |perms| >= populationSize
    requires forall i :: 0 <= i < |perms| ==> IsPermutation(perms[i], length)
    ensures outcome.Terminated? <==> terminate(Evaluate(fitness, population), generation)
    ensures outcome.Terminated? ==>
      var evaluated := Evaluate(fitness, population);
      outcome.best == evaluated[0]
      && forall i :: 0 <= i < |evaluated| ==> GetFitness(outcome.best) >= GetFitness(evaluated[i])
    ensures outcome.Continue? ==>
      var evaluated := Evaluate(fitness, population);
      Successor(evaluated, select(evaluated, EvenParentCount(rounded)), populationSize, length,
                cuts, genomes, flips, perms, outcome.population)
    ensures outcome.Continue? ==>
      && |outcome.population| == populationSize
      && GenomeLength(outcome.population, length)
      && outcome.generation == generation + 1
  {
    var evaluated := Evaluate(fitness, population);
    BestIsFittest(fitness, population);
    EvaluatePreservesGenomeLength(fitness, population, length);
    var best := evaluated[0];
    if terminate(evaluated, generation) {
      return Terminated(best);
    }

    var n := EvenParentCount(rounded);
    var parents := select(evaluated, n);
    assert forall c :: c in parents ==> c in evaluated;
    var offspring, leftover := Survivors(evaluated, parents, populationSize, length, cuts);
    var next := Regrow(offspring, leftover, populationSize, length, genomes, flips, perms);
    outcome := Continue(next, generation + 1);
  }

  /** The first population fits the generation step: `population_size` fresh chromosomes of
      the genome length. */
  lemma InitialPopulationFits<A>(genomes: seq<seq<A>>, populationSize: nat, length: nat)
    requires |genomes| == populationSize
    requires forall i :: 0 <= i < |genomes| ==> |genomes[i]| == length
    ensures |InitialPopulation(genomes)| == populationSize
    ensures GenomeLength(InitialPopulation(genomes), length)
  {
  }

  /** Elitism can be the engine's strategy: it returns only members of the population. */
  lemma ElitismSelectsMembers<A(!new)>()
    ensures SelectsMembers((q: seq<Chromosome<A>>, k: nat) => Elitism.Select(q, k))
  {
  }

  /** Tournament with duplicates can be the engine's strategy, for any source of draws: the
      draws it is given for a population (any that do not fit select nothing). */
  lemma TournamentSelectsMembers<A(!new)>(draw: (seq<Chromosome<A>>, nat) -> seq<Tournament.Draw>)
    ensures SelectsMembers((q: seq<Chromosome<A>>, k: nat) =>
      if |draw(q, k)| == k && Tournament.ValidDraws(q, draw(q, k))
      then Tournament.SelectWithDuplicates(q, k, draw(q, k)) else [])
  {
    var select := (q: seq<Chromosome<A>>, k: nat) =>
      if |draw(q, k)| == k && Tournament.ValidDraws(q, draw(q, k))
      then Tournament.SelectWithDuplicates(q, k, draw(q, k)) else [];
    forall q, k, c | c in select(q, k) ensures c in q {
      if |draw(q, k)| == k && Tournament.ValidDraws(q, draw(q, k)) {
        assert c in Tournament.SelectWithDuplicates(q, k, draw(q, k));
      }
    }
    assert SelectsMembers(select);
  }
}
