/** Elitist selection (`src/selection/elitism.rs`): the first `n` chromosomes, in order. */
module Elitism {
  import opened Seqs
  import opened Chromosomes

  function Select<A>(population: seq<Chromosome<A>>, n: nat): (r: seq<Chromosome<A>>)
    ensures |r| == Min(n, |population|)
    ensures r <= population
    ensures forall c :: c in r ==> c in population
  {
    population[..Min(n, |population|)]
  }

  /** On a population sorted best-first, everything selected is at least as fit as
      everything left behind. */
  lemma KeepsTheFittest<A>(population: seq<Chromosome<A>>, n: nat)
    requires Evaluated(population) && SortedByFitness(population)
    ensures var r := Select(population, n);
      forall i, j :: 0 <= i < |r| <= j < |population| ==> GetFitness(r[i]) >= GetFitness(population[j])
  {
  }
}
