/** TrafficLightMutationOperator: mutate works on a clone of the individual's genes, may move
    genes 0 and 2 independently, and always builds a new, freshly evaluated individual. */
module TrafficLightMutation {
  import opened Common
  import Optimizer
  import opened TrafficLightIndividual

  datatype MutationOperator = MutationOperator(mutationRate: real, mutationDeviation: real, minTime: real, maxTime: real)

  /** The draws of one call of mutate: the gate and the step draw for gene 0, then those for gene 2. */
  datatype MutationDraws = MutationDraws(gate0: real, u0: real, gate2: real, u2: real)

  /** One gene under mutate: when its gate draw is below mutationRate it moves by
      (2u - 1) * mutationDeviation and is clamped into [minTime, maxTime]; otherwise it is kept.
      A moved gene lies in [minTime, maxTime], and one that started there moves by at most the
      deviation when the step draw is in [0, 1). */
  function MutatedTime(op: MutationOperator, x: real, gate: real, u: real): (r: real)
    ensures op.mutationRate <= gate ==> r == x
    ensures gate < op.mutationRate && op.minTime <= op.maxTime ==> op.minTime <= r <= op.maxTime
    ensures op.minTime <= x <= op.maxTime && 0.0 <= op.mutationDeviation && 0.0 <= u < 1.0 ==>
      x - op.mutationDeviation <= r <= x + op.mutationDeviation
  {
    if gate < op.mutationRate then ClampReal(x + Step(u, op.mutationDeviation), op.minTime, op.maxTime) else x
  }

  /** The move (2u - 1) * dev of a mutated gene; with u in [0, 1) and dev >= 0 it lies in
      [-dev, dev]. */
  function Step(u: real, dev: real): (m: real)
    ensures 0.0 <= dev && 0.0 <= u < 1.0 ==> -dev <= m <= dev
  {
    var m := (u * 2.0 - 1.0) * dev;
    assert 0.0 <= dev && 0.0 <= u < 1.0 ==> -dev <= m <= dev by {
      if 0.0 <= dev && 0.0 <= u < 1.0 {
        MulMono(-1.0, u * 2.0 - 1.0, dev);
        MulMono(u * 2.0 - 1.0, 1.0, dev);
      }
    }
    m
  }

  /** The genes mutate passes to the new individual: genes 0 and 2 each under their own pair of
      draws, every other gene copied. A gene is read only when its gate opens. */
  function MutatedTimes(op: MutationOperator, g: seq<real>, d: MutationDraws): (r: seq<real>)
    requires d.gate0 < op.mutationRate ==> 1 <= |g|
    requires d.gate2 < op.mutationRate ==> 3 <= |g|
    ensures |r| == |g|
    ensures forall i | 0 <= i < |g| && i != 0 && i != 2 :: r[i] == g[i]
    ensures 1 <= |g| ==> r[0] == MutatedTime(op, g[0], d.gate0, d.u0)
    ensures 3 <= |g| ==> r[2] == MutatedTime(op, g[2], d.gate2, d.u2)
  {
    var g0 := if d.gate0 < op.mutationRate then g[0 := MutatedTime(op, g[0], d.gate0, d.u0)] else g;
    if d.gate2 < op.mutationRate then g0[2 := MutatedTime(op, g0[2], d.gate2, d.u2)] else g0
  }

  /** mutate: a new individual built from the mutated clone. It has the input's number of genes
      and the fitness of its own genes; when neither gate opens it equals an evaluated input. */
  function Mutate(op: MutationOperator, x: Individual, d: MutationDraws, evaluate: Optimizer.Evaluator): (y: Individual)
    requires d.gate0 < op.mutationRate ==> 1 <= |x.phaseTimes|
    requires d.gate2 < op.mutationRate ==> 3 <= |x.phaseTimes|
    ensures y.phaseTimes == MutatedTimes(op, x.phaseTimes, d)
    ensures Evaluated(y, evaluate)
    ensures Shaped(x) ==> Sound(y, evaluate)
    ensures op.mutationRate <= d.gate0 && op.mutationRate <= d.gate2 && Evaluated(x, evaluate) ==> y == x
  {
    FromPhaseTimes(MutatedTimes(op, x.phaseTimes, d), evaluate)
  }
}
