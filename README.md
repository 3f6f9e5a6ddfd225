# genetic-algorithm, modelled in Dafny

This project models the Rust library `genetic-algorithm`, a generic evolutionary-search engine. The user supplies a problem: a genome generator, a fitness function and a termination predicate. The engine then evolves a population of chromosomes, one generation at a time:

- evaluate and sort best-first;
- check termination;
- select parents;
- pair them and cross them over;
- refill with fresh chromosomes;
- shuffle-mutate.

The model covers:

- the chromosome value;
- the three crossover strategies (single-point, uniform, order-one);
- elitist and two-way tournament selection;
- one generation of the engine;
- the builder.

Every random draw is an explicit argument. That covers cut points, keep masks, segment bounds, tournament index pairs, mutation coin flips and shuffle permutations. Each argument is constrained only by what the source's range and `unwrap` calls demand.

Files:

- `wrappers.dfy`: `Option` and `Result`.
- `seqs.dfy`: shared sequence helpers. These are filtering, de-duplication and distinctness, plus permutations given as index sequences, with the proof that applying one preserves the multiset.
- `chromosome.dfy`: the chromosome value and its accessors.
- `single_point.dfy`, `uniform.dfy`, `order_one.dfy`: the crossover strategies, modelled standalone. The engine never calls them: it has no crossover field and always runs its own inline single-point code.
- `elitism.dfy`, `tournament.dfy`: the selection strategies.
- `stable_sort.dfy`: a stable sort by key. It stands in for `sorted_by_key`, with stability proved.
- `genetic.dfy`: `evaluate`, `selection`, pairing, the engine's crossover, refill, `mutate`, and one loop iteration of `evolve`.
- `builder.dfy`: `GeneticBuilder` defaults, setters and `build`.

Conventions:

- Fitness is an integer. The problem's `fitness` is a function parameter `Chromosome<A> -> int`, and `terminate` and the selection strategy used by the engine are function parameters too.
- A chromosome is a datatype. The source derives `Eq`/`Hash`/`Clone` and keeps chromosomes in hash sets, so equality is structural over genes, fitness, size and age.

## Where the design description and the code differ

The library's design description states several behaviours that `src/genetic.rs` does not have. The model follows the code in each case:

- **Mutation resets no fitness.** The description says a shuffle sets the fitness back to unset. `mutate` (`src/genetic.rs:136-145`) only shuffles the genes, so the cached fitness and the age survive. `Genetic.Mutate` states that they are kept.
- **No crossover-strategy setting.** The description lists a crossover-strategy choice in the configuration, defaulting to single-point. `GeneticBuilder` has no such field, and the engine always runs its own inline single-point code (`src/genetic.rs:114-134`).
- **Every chromosome is re-scored.** The description says only unscored chromosomes are evaluated. `evaluate` (`src/genetic.rs:75-79`) sets the fitness of every chromosome and increases every age by one, each generation. `Genetic.Mark` and `Genetic.EvaluateReorders` state this.
- **Ties come out in reverse input order.** The description says a stable sort keeps the prior order among equal fitness. The stable `sorted_by_key` is followed by `rev` (`src/genetic.rs:80-81`), so equal-fitness chromosomes come out in reverse input order. `Genetic.EvaluateReorders` states this.
- **Children are not fresh chromosomes.** The description says crossover produces new chromosome values. The engine's own crossover (`src/genetic.rs:119-129`) edits the parents' gene vectors, so each child keeps its parent's cached fitness, age and size. `Genetic.Cross` states this.
- **The leftover cap uses the parents actually returned.** The description caps the leftover at `population_size - n`. The code caps it at `population_size - parents.len()` (`src/genetic.rs:100`). `Genetic.Leftover` follows the code.

## Model

| member | source | states |
|---|---|---|
| Chromosomes.New | src/chromosome.rs:14-21 | a new chromosome holds the given genes, no fitness, age 0 and size equal to the gene count |
| Chromosomes.GetFitness | src/chromosome.rs:23-25 | defined only once the fitness is set (the `unwrap`), and returns the stored value |
| Chromosomes.SetFitness | src/chromosome.rs:27-29 | afterwards the fitness reads back as the value set; genes, size and age are unchanged |
| Chromosomes.SetFitnessIdempotent | src/chromosome.rs:27-29 | setting the same fitness twice equals setting it once |
| Chromosomes.GetSize | src/chromosome.rs:31-33 | returns the size captured at construction, which equals the gene count for a chromosome as built by `new` |
| Chromosomes.SizeNotRecomputed | src/chromosome.rs:31-33 | editing the public genes after construction leaves `get_size` at the original length |
| Chromosomes.EqualityCoversAllFields | src/chromosome.rs:4-10 | chromosomes with equal genes but a different age, fitness or size are unequal |
| SinglePoint.Crossover | src/crossover/single_point.rs:20-28 | requires `cx < father.get_size()` and both gene vectors at least `cx` long; child1 = father[..cx] ++ mother[cx..] and child2 = mother[..cx] ++ father[cx..]; \|child1\| = \|mother\| and \|child2\| = \|father\|; together the children hold the parents' alleles as a multiset; cx = 0 exchanges the genes; both children are fresh |
| Uniform.Create | src/crossover/uniform.rs:16-21 | the crossover rate is stored unchanged |
| Uniform.ZipChoose | src/crossover/uniform.rs:30-41 | zip truncates to the shorter parent; at each position the pair is kept when the mask says keep and exchanged otherwise |
| Uniform.Crossover | src/crossover/uniform.rs:30-43 | both children are fresh and have min(\|father\|, \|mother\|) genes; position i holds (f[i], m[i]) when kept and (m[i], f[i]) when swapped; a rate outside [0, 1] is refused when any coin is flipped |
| Uniform.PositionMultiset | src/crossover/uniform.rs:34-40 | at every position the two children hold the two parents' alleles between them |
| Uniform.UniformMasks | src/crossover/uniform.rs:34-40 | an all-keep mask returns the parents' genes truncated; an all-swap mask returns them exchanged |
| Uniform.SwapParents | src/crossover/uniform.rs:30-43 | exchanging father and mother under the same mask exchanges the children |
| OrderOne.Segment | src/crossover/order_one.rs:20-26 | the two draws, smaller first: start <= end, and {start, end} is the set of draws |
| OrderOne.Contribution | src/crossover/order_one.rs:29-42 | the filler's genes whose values are outside the donor's segment, each such value as often as in the filler |
| OrderOne.Child | src/crossover/order_one.rs:27-52 | requires the filtered list to have at least `start` elements (`split_at`); the child holds the donor's segment at [start, end), and the rest of the child, read in order, is exactly the filler's genes not in that segment |
| OrderOne.Drawable | src/crossover/order_one.rs:21-43 | the draws the source accepts without panicking; they need a non-empty father, and the segment never reaches his last gene |
| OrderOne.Crossover | src/crossover/order_one.rs:20-62 | both children are fresh; child1 keeps the father's segment in place and fills around it with the mother's genes not in that segment, in the mother's order; child2 is the symmetric construction |
| OrderOne.ContributionComplementsSegment | src/crossover/order_one.rs:27-33 | for a duplicate-free donor and a filler with the same values, the filtered filler plus the segment are exactly the donor's values |
| OrderOne.ChildIsPermutation | src/crossover/order_one.rs:27-52 | for such parents the split at `start` cannot fail and the child is a rearrangement of the donor |
| OrderOne.OnPermutations | src/crossover/order_one.rs:20-62 | on two rearrangements of the same distinct values, any two draws within the father are accepted, and both children have the parents' length, the parents' multiset and no repeated value |
| OrderOne.EmptySegment | src/crossover/order_one.rs:20-62 | when start = end, child1's genes are the mother's and child2's are the father's |
| Elitism.Select | src/selection/elitism.rs:12-13 | exactly the first min(n, \|population\|) chromosomes, in order, each a member of the population |
| Elitism.KeepsTheFittest | src/selection/elitism.rs:12-13 | on a population sorted best-first, every selected fitness is at least every unselected one |
| Tournament.Winner | src/selection/tournament.rs:19-20 | the winner is one of the two drawn, at least as fit as both, and the later of the two on a tie (`max_by_key` keeps the last maximum) |
| Tournament.ValidDraw | src/selection/tournament.rs:19-21 | the draws `choose_multiple(_, 2)` and the `unwrap` allow: a non-empty population, and two different indices unless it has one member |
| Tournament.SelectWithDuplicates | src/selection/tournament.rs:16-24 | exactly n chromosomes, the k-th the winner of the k-th draw, each a member of the population |
| Tournament.WeakestNeverSelected | src/selection/tournament.rs:19-21 | with at least two members, a chromosome strictly less fit than every other is never selected |
| Tournament.SelectWithoutDuplicates | src/selection/tournament.rs:35-47 | the result is the set of winners of the draws consumed; it never exceeds n members and holds only population members; it stops as soon as it reaches n members, and stops short of n only when the draws run out |
| StableSort.SortByKey | src/genetic.rs:80 | the result is a rearrangement of the input |
| StableSort.SortByKeyStable | src/genetic.rs:80 | the result is ordered by key, and elements with equal keys keep their input order |
| StableSort.InsertOrdered | src/genetic.rs:80 | inserting into a key-ordered, stably ordered sequence keeps it so |
| Seqs.PermutePreservesMultiset | src/genetic.rs:138-143 | reordering a gene vector by a permutation of its positions keeps its multiset of alleles |
| Seqs.Filter | src/crossover/order_one.rs:29-33 | keeps exactly the occurrences of values outside the excluded set |
| Seqs.Dedup | src/genetic.rs:95-99 | a duplicate-free sequence with the same values as its input |
| Genetic.EvenParentCount | src/genetic.rs:37-38 | the parent count is even, and is either the rounded count or one more |
| Genetic.InitialPopulation | src/genetic.rs:29-31 | one fresh chromosome per generated genome |
| Genetic.Mark | src/genetic.rs:75-79 | fitness set to the problem's value and age increased by exactly one; genes and size kept |
| Genetic.Descending | src/genetic.rs:80-81 | the sorted-then-reversed tagged chromosomes: every input marked, fitness non-increasing, and equal fitness in reverse input order |
| Genetic.Evaluate | src/genetic.rs:73-83 | same length; every chromosome evaluated; fitness non-increasing along the result |
| Genetic.EvaluateReorders | src/genetic.rs:73-83 | the result is the input reordered: every input position appears exactly once, each chromosome with its fitness set and its age increased by one; chromosomes of equal fitness come out in reverse input order (stable ascending sort followed by `rev`) |
| Genetic.BestIsFittest | src/genetic.rs:40-55 | the first chromosome after evaluation is at least as fit as every chromosome of the evaluated population |
| Genetic.EvaluatePreservesGenomeLength | src/genetic.rs:73-83 | evaluation keeps every chromosome's gene count and size |
| Genetic.Leftover | src/genetic.rs:95-102 | requires \|parents\| <= population_size (the usize subtraction); the leftover has min(population_size - \|parents\|, \|population \\ parents\|) chromosomes, no two equal, each in the population and none a parent |
| Genetic.Difference | src/genetic.rs:95-99 | an enumeration of the hash-set difference population \\ parents, each value once |
| Genetic.Pairs | src/genetic.rs:104-109 | consecutive parents in order, ceil(\|parents\|/2) entries, and `None` for a trailing odd parent |
| Genetic.Cross | src/genetic.rs:119-129 | each child carries its own parent's prefix and the other's suffix, and keeps that parent's cached fitness, age and size |
| Genetic.Offspring | src/genetic.rs:117-133 | the fold's accumulator holds an even number of children, at most two per pair |
| Genetic.Crossover | src/genetic.rs:114-134 | the fold's result equals the children of every full pair, in pair order, with `None` entries dropped |
| Genetic.OffspringCount | src/genetic.rs:104-134 | two children per full pair: 2 * (\|parents\| / 2) children, never more than the parents |
| Genetic.OffspringPositions | src/genetic.rs:104-134 | children 2i and 2i+1 are parents 2i and 2i+1 crossed at the cut drawn for pair i |
| Genetic.OffspringGenomeLength | src/genetic.rs:114-134 | parents of L genes give children of L genes and size L |
| Genetic.OffspringFromParents | src/genetic.rs:104-134 | pairing L-gene parents, with the cut of each full pair below L, always yields valid cuts, 2 * (\|parents\| / 2) children, all of L genes |
| Genetic.Refilled | src/genetic.rs:60-64 | offspring, then leftover, then one fresh chromosome per extra genome, up to max(population_size, \|offspring\| + \|leftover\|) chromosomes |
| Genetic.Refill | src/genetic.rs:60-64 | the loop pushing fresh chromosomes returns exactly `Refilled` of its inputs |
| Genetic.RefilledGenomeLength | src/genetic.rs:60-64 | refilling with L-gene genomes keeps every chromosome at L genes |
| Genetic.MutateOne | src/genetic.rs:138-143 | either unchanged or genes reordered by the drawn permutation; the multiset of alleles, fitness, age and size are kept |
| Genetic.Mutate | src/genetic.rs:136-145 | same length; every chromosome keeps its alleles as a multiset, its fitness, age and size, and is unchanged when its coin says no |
| Genetic.NextPopulationParts | src/genetic.rs:58-66 | in the next population, the first chromosomes are the crossover children, the next the leftover survivors and the rest fresh, each possibly shuffled, keeping its alleles as a multiset, its fitness and its age |
| Genetic.Survivors | src/genetic.rs:58-61 | the offspring are exactly the fold over the pairs of the selected parents, and the leftover exactly the capped difference of the population and the parents; offspring no more than the parents, offspring plus leftover no more than population_size, all of L genes |
| Genetic.Regrow | src/genetic.rs:61-66 | the next population is exactly the mutation of the refilled population; it has population_size chromosomes, all of L genes |
| Genetic.Generation | src/genetic.rs:37-70 | with the evened parent count: terminates exactly when the problem's predicate holds on the evaluated population, returning its first chromosome, which is the fittest; otherwise the next population is exactly the mutation of (offspring of the selected parents' pairs, then the leftover of the evaluated population minus the parents, then fresh chromosomes), it has population_size chromosomes of the run's genome length, and the generation counter advances by one |
| Genetic.InitialPopulationFits | src/genetic.rs:29-31 | population_size generated genomes of length L make a first population of population_size chromosomes of L genes, as the generation step requires |
| Genetic.ElitismSelectsMembers | src/selection/elitism.rs:12-13 | elitism returns only members of the population, so it can be the engine's strategy |
| Genetic.TournamentSelectsMembers | src/selection/tournament.rs:15-25 | tournament with duplicates returns only members of the population, for any source of draws |
| Builder.Default | src/genetic.rs:236-247 | population 100, mutation rate 0.05, selection rate 0.8, no fitness target, problem or strategy |
| Builder.WithFitnessTarget | src/genetic.rs:164-168 | sets the target and changes no other field |
| Builder.WithPopulationSize | src/genetic.rs:170-174 | sets the population size and changes no other field |
| Builder.WithProblem | src/genetic.rs:176-180 | sets the problem and changes no other field |
| Builder.WithMutationRate | src/genetic.rs:182-186 | sets the mutation rate and changes no other field |
| Builder.WithSelectionRate | src/genetic.rs:188-192 | sets the selection rate and changes no other field |
| Builder.WithSelectionStrategy | src/genetic.rs:194-210 | sets the strategy and changes no other field |
| Builder.Build | src/genetic.rs:212-233 | succeeds exactly when both problem and strategy are set; a missing problem is reported before a missing strategy; on success every field is copied into the engine |
| Builder.DefaultDoesNotBuild | src/genetic.rs:212-247 | the default builder fails with "problem is required" |
| Builder.MinimalBuild | src/genetic.rs:212-247 | setting only problem and strategy, in either order, builds an engine with the defaults |
| Builder.LastSetterWins | src/genetic.rs:170-174 | a later population-size setting overrides an earlier one |

## Left out

- Floating point.
  - The temperature update and `last_max_fitness` (`src/genetic.rs:34-35, 45, 68`) are not modelled. `Genetic.Generation` passes no temperature to the termination predicate.
  - The rounding of `len * selection_rate` (line 37) is not modelled. Its result is the parameter `rounded` of `Genetic.Generation`, and only the even-rounding step of line 38 is modelled.
  - Rates are `real` fields with no arithmetic on them.
- Randomness. `thread_rng`, `gen_range`, `gen_bool`, `choose_multiple`, `shuffle` and `random` become explicit arguments, constrained only by the ranges the source draws from.
  - Which draws are likely is not modelled.
  - A shuffle's permutation is any permutation of the positions.
- Roulette and random selection (`src/selection/roulette.rs`, `src/selection/random.rs`) are not part of this model. They are thin wrappers over the random library's weighted and uniform sampling. The engine's strategy is the function parameter `select` of `Genetic.Generation`, and that function is required to return only members of its population. `Genetic.ElitismSelectsMembers` and `Genetic.TournamentSelectsMembers` prove this for elitism and for tournament with duplicates.
- Progress printing (`src/genetic.rs:47-52`) and the unbounded outer loop are not modelled. The loop's exit depends entirely on the user's `terminate`. `Genetic.Generation` models one iteration.
- Hash-set iteration order is unspecified.
  - `Genetic.Leftover` works for any duplicate-free enumeration of the difference.
  - `Genetic.Generation`, which must pick one, uses the population order (`Genetic.Difference`).
  - The without-duplicates tournament returns a set rather than a vector.
- Tournament.SelectWithoutDuplicates: the source loops until it has n distinct winners, however many draws that takes, and never terminates if the population holds fewer than n candidates. The model consumes a finite sequence of draws and reports how many it used. A short result means the draws ran out.
- StableSort.SortByKey: an insertion sort stands for the library's stable `sorted_by_key`. Only its observable result is modelled: a rearrangement, ordered by key, stable.
- Chromosome age and the generation counter are unbounded natural numbers. In the source they are `u32`, so after 2^32 generations `c.age += 1` (`src/genetic.rs:77`) and `generation += 1` (line 69) panic in a debug build and wrap in a release build. Neither is modelled.
- Fitness is an integer rather than an arbitrary totally ordered type.
- The problem adapter (`src/problem.rs`), the selection trait (`src/selection.rs`) and the crossover trait (`src/crossover.rs`) appear only as type and function parameters and the `Selection` datatype.
- The repository's demo programs (onemax, n-queens, knapsack and others) are not part of this model.
- Genetic.Generation: requires that the selection returns at most `population_size` parents, so it models only the case where the subtraction `population_size - parents.len()` at line 100 does not underflow. On underflow, a debug build panics. A release build wraps to a huge cap, so `take` keeps the whole difference and the next population can grow past `population_size`; that case is not modelled. The builder's rates alone cannot rule it out: a selection rate of 1.0 with an odd population size gives an even-rounded parent count one above the population size.
- Genetic.Generation: requires every cut drawn for a full pair to be below the genome length, as `gen_range(0..father.get_size())` at line 120 demands. With genome length 0 and at least two parents no cut can meet this, which is the source's panic on an empty range.
