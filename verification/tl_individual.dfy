/** TrafficLightIndividual: an immutable chromosome of four phase times whose fitness is computed
    once, when it is built. Being final and handed out only as clones, its genes are a value here.

    The simulation behind evaluateFitness runs the nets of the intersection without connecting the
    directional nets to the control net; it is the abstract evaluator of the real-valued GA, and a
    failed evaluation scores Double.MAX_VALUE. */
module TrafficLightIndividual {
  import opened Common
  import Optimizer

  datatype Individual = Individual(phaseTimes: seq<real>, fitness: real)

  /** fitness is what evaluateFitness gives for the genes. */
  predicate Evaluated(x: Individual, evaluate: Optimizer.Evaluator)
  {
    x.fitness == Optimizer.FitnessOf(evaluate, x.phaseTimes)
  }

  /** Four phase times, as both constructors of the operator-based GA make them. */
  predicate Shaped(x: Individual)
  {
    |x.phaseTimes| == 4
  }

  /** The shape every individual of the operator-based GA has: four evaluated phase times. */
  predicate Sound(x: Individual, evaluate: Optimizer.Evaluator)
  {
    Shaped(x) && Evaluated(x, evaluate)
  }

  /** TrafficLightIndividual(double[]): keeps a clone of the genes (later writes to the caller's
      array cannot reach it) and evaluates exactly those genes, once. */
  function FromPhaseTimes(phaseTimes: seq<real>, evaluate: Optimizer.Evaluator): (x: Individual)
    ensures x.phaseTimes == phaseTimes
    ensures Evaluated(x, evaluate)
    ensures evaluate(phaseTimes).None? ==> x.fitness == DoubleMaxValue
  {
    Individual(phaseTimes, Optimizer.FitnessOf(evaluate, phaseTimes))
  }

  /** TrafficLightIndividual(minTime, maxTime): genes 0 and 2 are minTime + u * (maxTime - minTime)
      for the draws u0 and u2, genes 1 and 3 are 10.0. With minTime <= maxTime and draws in [0, 1)
      the drawn genes lie in [minTime, maxTime]. */
  function RandomIndividual(minTime: real, maxTime: real, u0: real, u2: real, evaluate: Optimizer.Evaluator): (x: Individual)
    ensures Sound(x, evaluate)
    ensures x.phaseTimes[1] == 10.0 && x.phaseTimes[3] == 10.0
    ensures minTime <= maxTime && 0.0 <= u0 < 1.0 ==> minTime <= x.phaseTimes[0] <= maxTime
    ensures minTime <= maxTime && 0.0 <= u2 < 1.0 ==> minTime <= x.phaseTimes[2] <= maxTime
  {
    FromPhaseTimes([ScaledDraw(minTime, maxTime, u0), 10.0, ScaledDraw(minTime, maxTime, u2), 10.0], evaluate)
  }

  /** lo + u * (hi - lo): a draw u in [0, 1) scaled onto [lo, hi] stays inside it. */
  function ScaledDraw(lo: real, hi: real, u: real): (r: real)
    ensures lo <= hi && 0.0 <= u < 1.0 ==> lo <= r <= hi
  {
    if lo <= hi && 0.0 <= u < 1.0 then
      MulMono(0.0, u, hi - lo);
      MulMono(u, 1.0, hi - lo);
      lo + u * (hi - lo)
    else
      lo + u * (hi - lo)
  }

  /** compareTo: Double.compare of the two fitnesses, -1, 0 or 1. */
  function CompareTo(a: Individual, b: Individual): (r: int)
    ensures r < 0 <==> a.fitness < b.fitness
    ensures r == 0 <==> a.fitness == b.fitness
    ensures r > 0 <==> a.fitness > b.fitness
    ensures -1 <= r <= 1
  {
    if a.fitness < b.fitness then -1 else if a.fitness > b.fitness then 1 else 0
  }

  /** compareTo is a total preorder: reflexive, total, transitive, and the reverse comparison has
      the opposite sign. */
  lemma CompareToPreorder(a: Individual, b: Individual, c: Individual)
    ensures CompareTo(a, a) == 0
    ensures CompareTo(a, b) <= 0 || CompareTo(b, a) <= 0
    ensures CompareTo(a, b) == -CompareTo(b, a)
    ensures CompareTo(a, b) <= 0 && CompareTo(b, c) <= 0 ==> CompareTo(a, c) <= 0
  {
  }

  /** Collections.min under compareTo: the first element, replaced by every later one that
      compares strictly below it. It is an element, none is smaller, and no earlier element ties
      with it. */
  function MinOf(xs: seq<Individual>): (m: nat)
    requires |xs| > 0
    ensures m < |xs|
    ensures forall k | 0 <= k < |xs| :: xs[m].fitness <= xs[k].fitness
    ensures forall k | 0 <= k < m :: xs[m].fitness < xs[k].fitness
  {
    if |xs| == 1 then 0
    else
      var m := MinOf(xs[..|xs| - 1]);
      if CompareTo(xs[|xs| - 1], xs[m]) < 0 then |xs| - 1 else m
  }
}
