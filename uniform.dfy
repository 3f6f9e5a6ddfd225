/** Uniform crossover (`src/crossover/uniform.rs`). The per-position coin flips are passed in
    as a keep mask: `keep[i]` says the pair at position `i` stays (father, mother). */
module Uniform {
  import opened Seqs
  import opened Chromosomes

  /** The strategy holds only its crossover rate, a probability for `gen_bool`. */
  datatype Uniform = Uniform(crossoverRate: real)

  function Create(crossoverRate: real): (u: Uniform)
    ensures u.crossoverRate == crossoverRate
  {
    Uniform(crossoverRate)
  }

  /** `zip`, then keep or swap each pair, then `unzip`. */
  function ZipChoose<A>(f: seq<A>, m: seq<A>, keep: seq<bool>): (r: (seq<A>, seq<A>))
    requires |keep| == Min(|f|, |m|)
    ensures |r.0| == |keep| && |r.1| == |keep|
    ensures forall i :: 0 <= i < |keep| ==>
      if keep[i] then r.0[i] == f[i] && r.1[i] == m[i] else r.0[i] == m[i] && r.1[i] == f[i]
  {
    if f == [] || m == [] then ([], [])
    else
      var rest := ZipChoose(f[1..], m[1..], keep[1..]);
      if keep[0] then ([f[0]] + rest.0, [m[0]] + rest.1)
      else ([m[0]] + rest.0, [f[0]] + rest.1)
  }

  function Crossover<A>(u: Uniform, father: Chromosome<A>, mother: Chromosome<A>, keep: seq<bool>)
    : (r: (Chromosome<A>, Chromosome<A>))
    requires |keep| == Min(|father.genes|, |mother.genes|)
    requires |keep| > 0 ==> 0.0 <= u.crossoverRate <= 1.0   // gen_bool panics outside [0, 1]
    ensures Fresh(r.0) && Fresh(r.1)
    ensures |r.0.genes| == Min(|father.genes|, |mother.genes|) && |r.1.genes| == |r.0.genes|
    ensures forall i :: 0 <= i < |keep| ==>
      (r.0.genes[i], r.1.genes[i]) == if keep[i] then (father.genes[i], mother.genes[i])
                                      else (mother.genes[i], father.genes[i])
  {
    var children := ZipChoose(father.genes, mother.genes, keep);
    (New(children.0), New(children.1))
  }

  /** At every position the two children hold the two parents' alleles between them. */
  lemma PositionMultiset<A>(u: Uniform, father: Chromosome<A>, mother: Chromosome<A>, keep: seq<bool>, i: nat)
    requires |keep| == Min(|father.genes|, |mother.genes|)
    requires |keep| > 0 ==> 0.0 <= u.crossoverRate <= 1.0
    requires i < |keep|
    ensures var r := Crossover(u, father, mother, keep);
      multiset{r.0.genes[i], r.1.genes[i]} == multiset{father.genes[i], mother.genes[i]}
  {
  }

  /** An all-keep mask returns the parents' genes truncated to the shorter one; an all-swap
      mask returns them exchanged. */
  lemma UniformMasks<A>(u: Uniform, father: Chromosome<A>, mother: Chromosome<A>, keep: seq<bool>)
    requires |keep| == Min(|father.genes|, |mother.genes|)
    requires |keep| > 0 ==> 0.0 <= u.crossoverRate <= 1.0
    ensures var r := Crossover(u, father, mother, keep);
      var n := |keep|;
      ((forall i :: 0 <= i < n ==> keep[i]) ==> r.0.genes == father.genes[..n] && r.1.genes == mother.genes[..n])
      && ((forall i :: 0 <= i < n ==> !keep[i]) ==> r.0.genes == mother.genes[..n] && r.1.genes == father.genes[..n])
  {
  }

  /** Exchanging the parents under the same mask exchanges the children. */
  lemma SwapParents<A>(u: Uniform, father: Chromosome<A>, mother: Chromosome<A>, keep: seq<bool>)
    requires |keep| == Min(|father.genes|, |mother.genes|)
    requires |keep| > 0 ==> 0.0 <= u.crossoverRate <= 1.0
    ensures Crossover(u, mother, father, keep) == (Crossover(u, father, mother, keep).1, Crossover(u, father, mother, keep).0)
  {
    var r := Crossover(u, father, mother, keep);
    var s := Crossover(u, mother, father, keep);
    assert s.0.genes == r.1.genes;
    assert s.1.genes == r.0.genes;
  }
}
