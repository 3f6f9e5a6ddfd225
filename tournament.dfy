/** Two-way tournament selection (`src/selection/tournament.rs`). Each tournament's two
    random picks are passed in as a `Draw` of population indices, in the order
    `choose_multiple` yields them. */
module Tournament {
  import opened Chromosomes

  datatype Draw = Draw(first: nat, second: nat)

  /** What `choose_multiple(_, 2)` can yield: two different indices, or the single index 0
      when the population has one member; and `max_by_key` reads both fitness values. */
  predicate ValidDraw<A>(population: seq<Chromosome<A>>, d: Draw): (r: bool)
    ensures r ==> 0 < |population| && (d.first == d.second ==> |population| == 1)
  {
    && d.first < |population| && d.second < |population|
    && (|population| >= 2 ==> d.first != d.second)
    && population[d.first].fitness.Some? && population[d.second].fitness.Some?
  }

  predicate ValidDraws<A>(population: seq<Chromosome<A>>, draws: seq<Draw>) {
    forall i :: 0 <= i < |draws| ==> ValidDraw(population, draws[i])
  }

  /** `max_by_key` on fitness: the fitter of the two, and the later one on a tie. */
  function Winner<A>(population: seq<Chromosome<A>>, d: Draw): (w: Chromosome<A>)
    requires ValidDraw(population, d)
    ensures w == population[d.first] || w == population[d.second]
    ensures w.fitness.Some?
    ensures GetFitness(w) >= GetFitness(population[d.first]) && GetFitness(w) >= GetFitness(population[d.second])
    ensures GetFitness(population[d.first]) == GetFitness(population[d.second]) ==> w == population[d.second]
  {
    if GetFitness(population[d.second]) >= GetFitness(population[d.first]) then population[d.second]
    else population[d.first]
  }

  /** With duplicates: one tournament per requested parent. */
  function SelectWithDuplicates<A>(population: seq<Chromosome<A>>, n: nat, draws: seq<Draw>)
    : (r: seq<Chromosome<A>>)
    requires |draws| == n && ValidDraws(population, draws)
    ensures |r| == n
    ensures forall k :: 0 <= k < n ==> r[k] == Winner(population, draws[k])
    ensures forall c :: c in r ==> c in population
  {
    seq(n, k requires 0 <= k < n => Winner(population, draws[k]))
  }

  /** With at least two members, a chromosome strictly less fit than every other member never
      wins a tournament. */
  lemma WeakestNeverSelected<A>(population: seq<Chromosome<A>>, n: nat, draws: seq<Draw>, weakest: nat)
    requires |draws| == n && ValidDraws(population, draws)
    requires Evaluated(population) && |population| >= 2 && weakest < |population|
    requires forall j :: 0 <= j < |population| && j != weakest ==>
      GetFitness(population[j]) > GetFitness(population[weakest])
    ensures forall c :: c in SelectWithDuplicates(population, n, draws) ==>
      c != population[weakest] && GetFitness(c) > GetFitness(population[weakest])
  {
    var r := SelectWithDuplicates(population, n, draws);
    forall c | c in r ensures c != population[weakest] && GetFitness(c) > GetFitness(population[weakest]) {
      var k :| 0 <= k < n && r[k] == c;
      var d := draws[k];
      assert ValidDraw(population, d);
      if d.first == weakest {
        assert c == population[d.second];
      } else if d.second == weakest {
        assert c == population[d.first];
      }
    }
  }

  /** The set of winners of a sequence of tournaments. */
  function Winners<A(==)>(population: seq<Chromosome<A>>, draws: seq<Draw>): set<Chromosome<A>>
    requires ValidDraws(population, draws)
  {
    if draws == [] then {}
    else Winners(population, draws[..|draws| - 1]) + {Winner(population, draws[|draws| - 1])}
  }

  /** Without duplicates: insert tournament winners into a set until it holds `n` members.
      The source loops for as long as it takes; here the draws are finite, `used` says how
      many were consumed, and a result with fewer than `n` members means the draws ran out. */
  method SelectWithoutDuplicates<A(==)>(population: seq<Chromosome<A>>, n: nat, draws: seq<Draw>)
    returns (selected: set<Chromosome<A>>, used: nat)
    requires ValidDraws(population, draws)
    ensures used <= |draws|
    ensures selected == Winners(population, draws[..used])
    ensures |selected| <= n
    ensures forall c :: c in selected ==> c in population
    ensures |selected| < n ==> used == |draws|
    ensures 0 < used ==> |Winners(population, draws[..used - 1])| < n
  {
    selected := {};
    used := 0;
    while |selected| < n && used < |draws|
      invariant used <= |draws|
      invariant selected == Winners(population, draws[..used])
      invariant |selected| <= n
      invariant forall c :: c in selected ==> c in population
      invariant 0 < used ==> |Winners(population, draws[..used - 1])| < n
      decreases |draws| - used
    {
      var winner := Winner(population, draws[used]);
      ghost var before := selected;
      selected := selected + {winner};
      assert draws[..used + 1][..used] == draws[..used];
      assert |selected| <= |before| + 1 by {
        if winner in before {
          assert selected == before;
        } else {
          assert |before + {winner}| == |before| + 1;
        }
      }
      used := used + 1;
    }
  }
}
