/** The earlier copy of Individual at the top of EVOLUTIONARY_SELECTION: the same chromosome as
    Evolution.Individual, except that its fitness is always the metric of goStats, with no
    failure branch and no penalty. */
module DraftSelection {
  import opened Common
  import opened Evolution

  /** getIndividualMetric(goStats(genes, ...)) of a gene vector. */
  type Metric = seq<int> -> real

  class Individual {
    const phaseTimes: array<int>
    var fitness: real
    const metric: Metric
    const config: GaConfig

    /** fitness is the metric of the current genes. */
    ghost predicate Valid()
      reads this, phaseTimes
    {
      fitness == metric(phaseTimes[..])
    }

    /** Individual(int[]): stores a copy of the given array, then evaluates it. */
    constructor (genes: array<int>, metric: Metric, config: GaConfig)
      ensures fresh(phaseTimes) && phaseTimes[..] == genes[..]
      ensures this.metric == metric && this.config == config && Valid()
    {
      phaseTimes := new int[genes.Length](i reads genes requires 0 <= i < genes.Length => genes[i]);
      this.metric := metric;
      this.config := config;
      new;
      fitness := metric(phaseTimes[..]);
    }

    /** mutate: the same walk over the even genes as Evolution.Individual.Mutate, then one
        evaluation of the metric. */
    method Mutate(gates: seq<real>, steps: seq<int>)
      requires EvenCount(phaseTimes.Length) <= |gates| && EvenCount(phaseTimes.Length) <= |steps|
      modifies this, phaseTimes
      ensures phaseTimes[..] == MutatedGenes(old(phaseTimes[..]), gates, steps, config)
      ensures Valid()
    {
      ghost var before := phaseTimes[..];
      var i := 0;
      while i < phaseTimes.Length
        invariant 0 <= i <= phaseTimes.Length + 1 && i % 2 == 0
        invariant forall k | 0 <= k < phaseTimes.Length ::
          phaseTimes[k] == if k < i then MutatedGenes(before, gates, steps, config)[k] else before[k]
      {
        if gates[i / 2] < config.mutationRate {
          phaseTimes[i] := ClampInt(phaseTimes[i] + steps[i / 2] - config.mutationDev, config.minPhaseTime, config.maxPhaseTime);
        }
        i := i + 2;
      }
      fitness := metric(phaseTimes[..]);
    }
  }
}
