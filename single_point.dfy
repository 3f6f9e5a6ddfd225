/** Single-point crossover (`src/crossover/single_point.rs`). The random cut index is a
    parameter; the gene vectors are split and re-joined step by step as the source does
    with `split_off` and `append`. */
module SinglePoint {
  import opened Chromosomes

  method Crossover<A>(father: Chromosome<A>, mother: Chromosome<A>, cx: nat)
    returns (child1: Chromosome<A>, child2: Chromosome<A>)
    requires cx < GetSize(father)                      // gen_range(0..father.get_size())
    requires cx <= |father.genes| && cx <= |mother.genes|  // split_off past the end panics
    ensures child1.genes == father.genes[..cx] + mother.genes[cx..]
    ensures child2.genes == mother.genes[..cx] + father.genes[cx..]
    ensures |child1.genes| == |mother.genes| && |child2.genes| == |father.genes|
    ensures multiset(child1.genes + child2.genes) == multiset(father.genes + mother.genes)
    ensures cx == 0 ==> child1.genes == mother.genes && child2.genes == father.genes
    ensures Fresh(child1) && Fresh(child2)
  {
    var fatherGenes, motherGenes := father.genes, mother.genes;
    var fatherSplit := fatherGenes[cx..];
    fatherGenes := fatherGenes[..cx];
    var motherSplit := motherGenes[cx..];
    motherGenes := motherGenes[..cx];
    fatherGenes := fatherGenes + motherSplit;
    motherGenes := motherGenes + fatherSplit;
    assert father.genes == father.genes[..cx] + fatherSplit;
    assert mother.genes == mother.genes[..cx] + motherSplit;
    child1 := New(fatherGenes);
    child2 := New(motherGenes);
  }
}
