/** `GeneticBuilder` from `src/genetic.rs`: defaults, single-field setters and the validation
    done by `build`. The problem is a type parameter; the selection strategy is the
    `Selection` enum, since each boxed strategy is built from its default. */
module Builder {
  import opened Wrappers

  /** The width of the builder's `population_size`. */
  type U32 = x: int | 0 <= x < 0x1_0000_0000

  datatype Selection =
    | TournamentWithDuplicates
    | TournamentWithoutDuplicates
    | Roulette
    | Elitism
    | Random

  datatype GeneticBuilder<P> = GeneticBuilder(
    fitnessTarget: Option<int>,
    problem: Option<P>,
    selectionStrategy: Option<Selection>,
    populationSize: U32,
    mutationRate: real,
    selectionRate: real)

  datatype GeneticAlgorithm<P> = GeneticAlgorithm(
    populationSize: U32,
    problem: P,
    fitnessTarget: Option<int>,
    mutationRate: real,
    selectionRate: real,
    selectionStrategy: Selection)

  /** The two panics of `build`, in the order they are checked. */
  datatype BuildError = ProblemRequired | SelectionStrategyRequired

  /** `default` (and `new`): population 100, mutation rate 0.05, selection rate 0.8, and
      nothing else set. */
  function Default<P>(): (b: GeneticBuilder<P>)
    ensures b.populationSize == 100 && b.mutationRate == 0.05 && b.selectionRate == 0.8
    ensures b.fitnessTarget.None? && b.problem.None? && b.selectionStrategy.None?
  {
    GeneticBuilder(None, None, None, 100, 0.05, 0.8)
  }

  function WithFitnessTarget<P>(b: GeneticBuilder<P>, target: int): (r: GeneticBuilder<P>)
    ensures r.fitnessTarget == Some(target)
    ensures r == b.(fitnessTarget := r.fitnessTarget)
  {
    b.(fitnessTarget := Some(target))
  }

  function WithPopulationSize<P>(b: GeneticBuilder<P>, size: U32): (r: GeneticBuilder<P>)
    ensures r.populationSize == size
    ensures r == b.(populationSize := r.populationSize)
  {
    b.(populationSize := size)
  }

  function WithProblem<P>(b: GeneticBuilder<P>, problem: P): (r: GeneticBuilder<P>)
    ensures r.problem == Some(problem)
    ensures r == b.(problem := r.problem)
  {
    b.(problem := Some(problem))
  }

  function WithMutationRate<P>(b: GeneticBuilder<P>, rate: real): (r: GeneticBuilder<P>)
    ensures r.mutationRate == rate
    ensures r == b.(mutationRate := r.mutationRate)
  {
    b.(mutationRate := rate)
  }

  function WithSelectionRate<P>(b: GeneticBuilder<P>, rate: real): (r: GeneticBuilder<P>)
    ensures r.selectionRate == rate
    ensures r == b.(selectionRate := r.selectionRate)
  {
    b.(selectionRate := rate)
  }

  function WithSelectionStrategy<P>(b: GeneticBuilder<P>, strategy: Selection): (r: GeneticBuilder<P>)
    ensures r.selectionStrategy == Some(strategy)
    ensures r == b.(selectionStrategy := r.selectionStrategy)
  {
    b.(selectionStrategy := Some(strategy))
  }

  /** `build` succeeds exactly when both the problem and the strategy are set, reports the
      missing problem first, and copies every field into the engine. */
  function Build<P>(b: GeneticBuilder<P>): (r: Result<GeneticAlgorithm<P>, BuildError>)
    ensures r.Ok? <==> b.problem.Some? && b.selectionStrategy.Some?
    ensures b.problem.None? ==> r == Err(ProblemRequired)
    ensures b.problem.Some? && b.selectionStrategy.None? ==> r == Err(SelectionStrategyRequired)
    ensures r.Ok? ==>
      && Some(r.value.problem) == b.problem
      && Some(r.value.selectionStrategy) == b.selectionStrategy
      && r.value.fitnessTarget == b.fitnessTarget
      && r.value.populationSize == b.populationSize
      && r.value.mutationRate == b.mutationRate
      && r.value.selectionRate == b.selectionRate
  {
    if b.problem.None? then Err(ProblemRequired)
    else if b.selectionStrategy.None? then Err(SelectionStrategyRequired)
    else Ok(GeneticAlgorithm(b.populationSize, b.problem.value, b.fitnessTarget,
                             b.mutationRate, b.selectionRate, b.selectionStrategy.value))
  }

  /** The default builder cannot build: the problem is reported missing. */
  lemma DefaultDoesNotBuild<P>()
    ensures Build(Default<P>()) == Err(ProblemRequired)
  {
  }

  /** Setting the problem and the strategy on the default builder is enough; the engine gets
      the default sizes and rates and no target, whatever order the two setters run in. */
  lemma MinimalBuild<P>(problem: P, strategy: Selection)
    ensures var r := Build(WithSelectionStrategy(WithProblem(Default(), problem), strategy));
      && r == Build(WithProblem(WithSelectionStrategy(Default(), strategy), problem))
      && r == Ok(GeneticAlgorithm(100, problem, None, 0.05, 0.8, strategy))
  {
  }

  /** A setter called later wins; the earlier value of that field is forgotten. */
  lemma LastSetterWins<P>(b: GeneticBuilder<P>, first: U32, second: U32)
    ensures WithPopulationSize(WithPopulationSize(b, first), second) == WithPopulationSize(b, second)
  {
  }
}
