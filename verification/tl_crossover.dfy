/** TrafficLightCrossoverOperator: two children from two parents, either plain copies or copies in
    which genes 0 and 2 may change places between the parents. The parents are read only through
    cloning getters, so they are values here. */
module TrafficLightCrossover {
  import Optimizer
  import opened TrafficLightIndividual

  datatype CrossoverOperator = CrossoverOperator(crossoverRate: real)

  /** The draws of one call of crossover: the nextDouble() compared with crossoverRate, then the
      two nextBoolean() that decide whether gene 0 and gene 2 change places. */
  datatype CrossoverDraws = CrossoverDraws(reproduce: real, swap0: bool, swap2: bool)

  /** A draw strictly above crossoverRate makes plain copies. */
  predicate Copies(op: CrossoverOperator, d: CrossoverDraws)
  {
    op.crossoverRate < d.reproduce
  }

  /** The genes at index k change places: crossover happens and k is 0 or 2 with its swap
      drawn. */
  predicate Swapped(op: CrossoverOperator, d: CrossoverDraws, k: nat)
  {
    !Copies(op, d) && ((k == 0 && d.swap0) || (k == 2 && d.swap2))
  }

  /** The draws let crossover run on parents with these genes: a gene is read only when its swap
      happens. */
  predicate CanCross(op: CrossoverOperator, p1: seq<real>, p2: seq<real>, d: CrossoverDraws)
  {
    && (!Copies(op, d) && d.swap0 ==> 1 <= |p1| && 1 <= |p2|)
    && (!Copies(op, d) && d.swap2 ==> 3 <= |p1| && 3 <= |p2|)
  }

  /** The genes of the two children: each child keeps its own parent's length; at index 0 or 2
      the parents' genes change places when that swap is drawn, every other gene stays with its
      own parent, so no gene is lost or duplicated; plain copies when the draw is above the
      rate. */
  function CrossedTimes(op: CrossoverOperator, p1: seq<real>, p2: seq<real>, d: CrossoverDraws): (c: (seq<real>, seq<real>))
    requires CanCross(op, p1, p2, d)
    ensures |c.0| == |p1| && |c.1| == |p2|
    ensures Copies(op, d) ==> c.0 == p1 && c.1 == p2
    ensures forall k | 0 <= k < |p1| :: c.0[k] == if Swapped(op, d, k) then p2[k] else p1[k]
    ensures forall k | 0 <= k < |p2| :: c.1[k] == if Swapped(op, d, k) then p1[k] else p2[k]
  {
    if Copies(op, d) then (p1, p2)
    else
      var (a0, b0) := if d.swap0 then Exchange(p1, p2, 0) else (p1, p2);
      if d.swap2 then Exchange(a0, b0, 2) else (a0, b0)
  }

  /** The two vectors with the genes at index k exchanged. */
  function Exchange(a: seq<real>, b: seq<real>, k: nat): (c: (seq<real>, seq<real>))
    requires k < |a| && k < |b|
    ensures c.0 == a[k := b[k]] && c.1 == b[k := a[k]]
  {
    (a[k := b[k]], b[k := a[k]])
  }

  /** Exchanging the genes at one index keeps the genes of the pair together: nothing is lost and
      nothing is duplicated. */
  lemma ExchangeKeepsGenes(a: seq<real>, b: seq<real>, k: nat)
    requires k < |a| && k < |b|
    ensures multiset(Exchange(a, b, k).0) + multiset(Exchange(a, b, k).1) == multiset(a) + multiset(b)
  {
    assert a == a[..k] + [a[k]] + a[k + 1..];
    assert b == b[..k] + [b[k]] + b[k + 1..];
    assert Exchange(a, b, k).0 == a[..k] + [b[k]] + a[k + 1..];
    assert Exchange(a, b, k).1 == b[..k] + [a[k]] + b[k + 1..];
  }

  /** Crossover keeps the parents' genes together: the two children hold, between them, exactly
      the genes of the two parents. */
  lemma CrossoverKeepsGenes(op: CrossoverOperator, p1: seq<real>, p2: seq<real>, d: CrossoverDraws)
    requires CanCross(op, p1, p2, d)
    ensures multiset(CrossedTimes(op, p1, p2, d).0) + multiset(CrossedTimes(op, p1, p2, d).1) == multiset(p1) + multiset(p2)
  {
    if !Copies(op, d) {
      var (a0, b0) := if d.swap0 then Exchange(p1, p2, 0) else (p1, p2);
      if d.swap0 {
        ExchangeKeepsGenes(p1, p2, 0);
      }
      if d.swap2 {
        ExchangeKeepsGenes(a0, b0, 2);
      }
    }
  }

  /** Crossing the children again with the same draws gives back the parents: the exchange
      undoes itself. */
  lemma CrossingTwice(op: CrossoverOperator, p1: seq<real>, p2: seq<real>, d: CrossoverDraws)
    requires CanCross(op, p1, p2, d)
    ensures CanCross(op, CrossedTimes(op, p1, p2, d).0, CrossedTimes(op, p1, p2, d).1, d)
    ensures CrossedTimes(op, CrossedTimes(op, p1, p2, d).0, CrossedTimes(op, p1, p2, d).1, d) == (p1, p2)
  {
    var c := CrossedTimes(op, p1, p2, d);
    ExchangedBack(op, p1, p2, c.0, c.1, d);
    ExchangedBack(op, p2, p1, c.1, c.0, d);
  }

  /** The first child of crossing children c1 and c2 that came from p1 and p2 is p1 again. */
  lemma ExchangedBack(op: CrossoverOperator, p1: seq<real>, p2: seq<real>, c1: seq<real>, c2: seq<real>, d: CrossoverDraws)
    requires CanCross(op, p1, p2, d) && |c1| == |p1| && |c2| == |p2|
    requires forall k | 0 <= k < |p1| :: c1[k] == if Swapped(op, d, k) then p2[k] else p1[k]
    requires forall k | 0 <= k < |p2| :: c2[k] == if Swapped(op, d, k) then p1[k] else p2[k]
    requires CanCross(op, c1, c2, d)
    ensures CrossedTimes(op, c1, c2, d).0 == p1
  {
    var back := CrossedTimes(op, c1, c2, d).0;
    forall k | 0 <= k < |p1|
      ensures back[k] == p1[k]
    {
      if Swapped(op, d, k) {
        assert c2[k] == p1[k];
      }
    }
  }

  /** crossover: exactly two children, built with the copying constructor from the crossed genes
      and evaluated; four-gene parents give four-gene evaluated children. */
  function Crossover(op: CrossoverOperator, parent1: Individual, parent2: Individual, d: CrossoverDraws, evaluate: Optimizer.Evaluator): (children: seq<Individual>)
    requires CanCross(op, parent1.phaseTimes, parent2.phaseTimes, d)
    ensures |children| == 2
    ensures children[0].phaseTimes == CrossedTimes(op, parent1.phaseTimes, parent2.phaseTimes, d).0
    ensures children[1].phaseTimes == CrossedTimes(op, parent1.phaseTimes, parent2.phaseTimes, d).1
    ensures Evaluated(children[0], evaluate) && Evaluated(children[1], evaluate)
    ensures Shaped(parent1) && Shaped(parent2) ==> Sound(children[0], evaluate) && Sound(children[1], evaluate)
    ensures Copies(op, d) && Evaluated(parent1, evaluate) && Evaluated(parent2, evaluate) ==> children == [parent1, parent2]
  {
    var c := CrossedTimes(op, parent1.phaseTimes, parent2.phaseTimes, d);
    [FromPhaseTimes(c.0, evaluate), FromPhaseTimes(c.1, evaluate)]
  }
}
