/** The chromosome value of `src/chromosome.rs`: genes, an optional cached fitness, the gene
    count captured at construction, and an age. The source derives `Eq`, `Hash` and `Clone`
    and stores chromosomes in hash sets, so it is modelled as a datatype whose equality is
    structural over all four fields; `set_fitness` becomes a functional update. */
module Chromosomes {
  import opened Wrappers

  /** Fitness values are integers (the source requires only a total order). */
  datatype Chromosome<A> = Chromosome(genes: seq<A>, fitness: Option<int>, size: nat, age: nat)

  /** A chromosome as `Chromosome::new` builds it: no fitness yet, age 0, and a size equal
      to its gene count. */
  predicate Fresh<A>(c: Chromosome<A>) {
    c.fitness == None && c.age == 0 && c.size == |c.genes|
  }

  function New<A>(genes: seq<A>): (c: Chromosome<A>)
    ensures Fresh(c) && c.genes == genes
  {
    Chromosome(genes, None, |genes|, 0)
  }

  /** Reading the fitness is a programming error until it has been set (`unwrap`). */
  function GetFitness<A>(c: Chromosome<A>): (f: int)
    requires c.fitness.Some?
    ensures c.fitness == Some(f)
  {
    c.fitness.value
  }

  function SetFitness<A>(c: Chromosome<A>, f: int): (r: Chromosome<A>)
    ensures r.fitness.Some? && GetFitness(r) == f
    ensures r.genes == c.genes && r.size == c.size && r.age == c.age
  {
    c.(fitness := Some(f))
  }

  /** The size captured at construction; it is not recomputed from the genes. */
  function GetSize<A>(c: Chromosome<A>): (n: nat)
    ensures n == c.size
    ensures c == New(c.genes) ==> n == |c.genes|
  {
    c.size
  }

  /** Setting the same fitness twice is the same as setting it once. */
  lemma SetFitnessIdempotent<A>(c: Chromosome<A>, f: int)
    ensures SetFitness(SetFitness(c, f), f) == SetFitness(c, f)
  {
  }

  /** Editing the public genes after construction keeps the captured size. */
  lemma SizeNotRecomputed<A>(genes: seq<A>, edited: seq<A>)
    ensures GetSize(New(genes).(genes := edited)) == |genes|
  {
  }

  /** Equality covers all four fields: equal genes with a different age or fitness are
      different chromosomes. */
  lemma EqualityCoversAllFields<A>(c: Chromosome<A>, d: Chromosome<A>)
    requires c.genes == d.genes
    ensures c.age != d.age || c.fitness != d.fitness || c.size != d.size ==> c != d
  {
  }

  /** Every chromosome of the population has been evaluated. */
  predicate Evaluated<A>(population: seq<Chromosome<A>>) {
    forall i :: 0 <= i < |population| ==> population[i].fitness.Some?
  }

  /** Fitness does not increase along the population. */
  predicate SortedByFitness<A>(population: seq<Chromosome<A>>)
    requires Evaluated(population)
  {
    forall i, j :: 0 <= i < j < |population| ==> GetFitness(population[i]) >= GetFitness(population[j])
  }

  /** The chromosome has `length` genes and a captured size of `length`. */
  predicate HasLength<A>(c: Chromosome<A>, length: nat) {
    |c.genes| == length && c.size == length
  }

  /** Every chromosome of the population has `length` genes. */
  predicate GenomeLength<A>(population: seq<Chromosome<A>>, length: nat) {
    forall i :: 0 <= i < |population| ==> HasLength(population[i], length)
  }
}
