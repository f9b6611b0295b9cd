/** TrafficLightPopulation: a list of immutable individuals that evolve replaces wholesale. The
    population holds its list in a field that evolve reassigns; the operators are the values of
    the two operator modules and the draws of the shared Random are explicit parameters. */
module TrafficLightPopulation {
  import opened Common
  import Optimizer
  import opened TrafficLightIndividual
  import opened TrafficLightMutation
  import opened TrafficLightCrossover

  /** Every tournament has tournamentSize index draws, each naming one of n individuals. */
  predicate PicksFit(picks: seq<seq<nat>>, tournamentSize: nat, n: nat)
  {
    forall i | 0 <= i < |picks| :: |picks[i]| == tournamentSize && forall j | 0 <= j < tournamentSize :: picks[i][j] < n
  }

  /** The entrants of one tournament: the individuals at the drawn indices, in draw order, drawn
      with replacement. */
  function Entrants(xs: seq<Individual>, picks: seq<nat>): (r: seq<Individual>)
    requires forall j | 0 <= j < |picks| :: picks[j] < |xs|
    ensures |r| == |picks| && forall j | 0 <= j < |picks| :: r[j] == xs[picks[j]]
  {
    seq(|picks|, j requires 0 <= j < |picks| => xs[picks[j]])
  }

  /** The individual one tournament settles on: the Collections.min of its entrants. It is a
      member of the population and no entrant has a lower fitness. */
  function Winner(xs: seq<Individual>, picks: seq<nat>): (w: Individual)
    requires |picks| >= 1 && forall j | 0 <= j < |picks| :: picks[j] < |xs|
    ensures w in xs
    ensures forall j | 0 <= j < |picks| :: w.fitness <= xs[picks[j]].fitness
  {
    var t := Entrants(xs, picks);
    t[MinOf(t)]
  }

  /** The individuals tournamentSelection returns: one winner per tournament, in order. Each is a
      member of the population, and none has a higher fitness than any entrant of its
      tournament. */
  function Selection(xs: seq<Individual>, tournamentSize: nat, picks: seq<seq<nat>>): (r: seq<Individual>)
    requires |picks| > 0 ==> 1 <= tournamentSize
    requires PicksFit(picks, tournamentSize, |xs|)
    ensures |r| == |picks|
    ensures forall i | 0 <= i < |picks| :: r[i] in xs
    ensures forall i, j | 0 <= i < |picks| && 0 <= j < tournamentSize :: r[i].fitness <= xs[picks[i][j]].fitness
  {
    if picks == [] then []
    else Selection(xs, tournamentSize, picks[..|picks| - 1]) + [Winner(xs, picks[|picks| - 1])]
  }

  /** One more tournament appends its winner. */
  lemma SelectionExtend(xs: seq<Individual>, tournamentSize: nat, picks: seq<seq<nat>>, i: nat)
    requires i < |picks| && 1 <= tournamentSize && PicksFit(picks, tournamentSize, |xs|)
    ensures Selection(xs, tournamentSize, picks[..i + 1]) == Selection(xs, tournamentSize, picks[..i]) + [Winner(xs, picks[i])]
  {
    assert picks[..i + 1][..i] == picks[..i];
  }

  /** The draws of one turn of the loop of evolve: crossover of the pair, then mutate of each
      child. */
  datatype PairDraws = PairDraws(cross: CrossoverDraws, mutate1: MutationDraws, mutate2: MutationDraws)

  /** The two individuals one turn of the loop of evolve adds: each child of crossover of the pair,
      mutated. Both are sound when the parents are. */
  function Brood(mop: MutationOperator, cop: CrossoverOperator, p1: Individual, p2: Individual, d: PairDraws, evaluate: Optimizer.Evaluator): (r: seq<Individual>)
    requires Shaped(p1) && Shaped(p2)
    ensures |r| == 2 && Sound(r[0], evaluate) && Sound(r[1], evaluate)
  {
    var offspring := Crossover(cop, p1, p2, d.cross, evaluate);
    [Mutate(mop, offspring[0], d.mutate1, evaluate), Mutate(mop, offspring[1], d.mutate2, evaluate)]
  }

  /** The genes of the brood: the crossed genes of the pair, each child under its own mutation
      draws. */
  lemma BroodGenes(mop: MutationOperator, cop: CrossoverOperator, p1: Individual, p2: Individual, d: PairDraws, evaluate: Optimizer.Evaluator)
    requires Shaped(p1) && Shaped(p2)
    ensures Brood(mop, cop, p1, p2, d, evaluate)[0].phaseTimes == MutatedTimes(mop, CrossedTimes(cop, p1.phaseTimes, p2.phaseTimes, d.cross).0, d.mutate1)
    ensures Brood(mop, cop, p1, p2, d, evaluate)[1].phaseTimes == MutatedTimes(mop, CrossedTimes(cop, p1.phaseTimes, p2.phaseTimes, d.cross).1, d.mutate2)
  {
  }

  /** The results of f on consecutive pairs of xs, pair k under ds[k], concatenated in order. */
  function Pairwise<T, D>(f: (T, T, D) --> seq<T>, xs: seq<T>, ds: seq<D>): seq<T>
    requires |xs| == 2 * |ds|
    requires forall k | 0 <= k < |ds| :: f.requires(xs[2 * k], xs[2 * k + 1], ds[k])
  {
    if ds == [] then []
    else
      var n := |ds| - 1;
      Pairwise(f, xs[..2 * n], ds[..n]) + f(xs[2 * n], xs[2 * n + 1], ds[n])
  }

  /** Taking one more pair appends its result. */
  lemma PairwiseExtend<T, D>(f: (T, T, D) --> seq<T>, xs: seq<T>, ds: seq<D>, i: nat, n: nat)
    requires |xs| == 2 * |ds| && n < |ds| && i == 2 * n
    requires forall k | 0 <= k < |ds| :: f.requires(xs[2 * k], xs[2 * k + 1], ds[k])
    ensures Pairwise(f, xs[..i + 2], ds[..n + 1]) == Pairwise(f, xs[..i], ds[..n]) + f(xs[i], xs[i + 1], ds[n])
  {
    var p, d := xs[..i + 2], ds[..n + 1];
    assert p[..i] == xs[..i] && d[..n] == ds[..n];
  }

  /** When every step yields two results, the results of pair k sit at 2k and 2k + 1. */
  lemma {:induction false} PairwiseAt<T, D>(f: (T, T, D) --> seq<T>, xs: seq<T>, ds: seq<D>, k: nat)
    requires |xs| == 2 * |ds| && k < |ds|
    requires forall j | 0 <= j < |ds| :: f.requires(xs[2 * j], xs[2 * j + 1], ds[j]) && |f(xs[2 * j], xs[2 * j + 1], ds[j])| == 2
    ensures |Pairwise(f, xs, ds)| == |xs|
    ensures Pairwise(f, xs, ds)[2 * k..2 * k + 2] == f(xs[2 * k], xs[2 * k + 1], ds[k])
  {
    var n := |ds| - 1;
    if k < n {
      PairwiseAt(f, xs[..2 * n], ds[..n], k);
    } else if 0 < n {
      PairwiseAt(f, xs[..2 * n], ds[..n], 0);
    }
  }

  /** The next generation the loop of evolve builds from an even number of parents: the broods of
      consecutive pairs of parents, in order. */
  function Bred(mop: MutationOperator, cop: CrossoverOperator, parents: seq<Individual>, draws: seq<PairDraws>, evaluate: Optimizer.Evaluator): seq<Individual>
    requires |parents| == 2 * |draws|
    requires forall k | 0 <= k < |parents| :: Shaped(parents[k])
  {
    Pairwise(Breeder(mop, cop, evaluate), parents, draws)
  }

  /** Brood as the step of the loop over pairs. */
  function Breeder(mop: MutationOperator, cop: CrossoverOperator, evaluate: Optimizer.Evaluator): (Individual, Individual, PairDraws) --> seq<Individual>
  {
    (p1, p2, d) requires Shaped(p1) && Shaped(p2) => Brood(mop, cop, p1, p2, d, evaluate)
  }

  /** As many new individuals as parents, each sound: built from evaluated genes of the right
      length. */
  lemma {:induction false} BredSound(mop: MutationOperator, cop: CrossoverOperator, parents: seq<Individual>, draws: seq<PairDraws>, evaluate: Optimizer.Evaluator)
    requires |parents| == 2 * |draws|
    requires forall k | 0 <= k < |parents| :: Shaped(parents[k])
    ensures |Bred(mop, cop, parents, draws, evaluate)| == |parents|
    ensures forall k | 0 <= k < |parents| :: Sound(Bred(mop, cop, parents, draws, evaluate)[k], evaluate)
  {
    if draws != [] {
      var n := |draws| - 1;
      BredSound(mop, cop, parents[..2 * n], draws[..n], evaluate);
    }
  }

  /** New individuals 2k and 2k + 1 are the brood of parents 2k and 2k + 1 under the draws of
      pair k. */
  lemma BredPairs(mop: MutationOperator, cop: CrossoverOperator, parents: seq<Individual>, draws: seq<PairDraws>, evaluate: Optimizer.Evaluator, k: nat)
    requires |parents| == 2 * |draws| && k < |draws|
    requires forall j | 0 <= j < |parents| :: Shaped(parents[j])
    ensures |Bred(mop, cop, parents, draws, evaluate)| == |parents|
    ensures Bred(mop, cop, parents, draws, evaluate)[2 * k..2 * k + 2] == Brood(mop, cop, parents[2 * k], parents[2 * k + 1], draws[k], evaluate)
  {
    var step := Breeder(mop, cop, evaluate);
    forall j | 0 <= j < |draws|
      ensures step.requires(parents[2 * j], parents[2 * j + 1], draws[j]) && |step(parents[2 * j], parents[2 * j + 1], draws[j])| == 2
    {
    }
    PairwiseAt(step, parents, draws, k);
  }

  /** Breeding one more pair, the one whose first parent is at i, appends its brood. */
  lemma BredExtend(mop: MutationOperator, cop: CrossoverOperator, parents: seq<Individual>, draws: seq<PairDraws>, evaluate: Optimizer.Evaluator, i: nat, pair: nat)
    requires |parents| == 2 * |draws| && pair < |draws| && i == 2 * pair
    requires forall k | 0 <= k < |parents| :: Shaped(parents[k])
    ensures Bred(mop, cop, parents[..i + 2], draws[..pair + 1], evaluate)
      == Bred(mop, cop, parents[..i], draws[..pair], evaluate) + Brood(mop, cop, parents[i], parents[i + 1], draws[pair], evaluate)
  {
    PairwiseExtend(Breeder(mop, cop, evaluate), parents, draws, i, pair);
  }

  /** The loop of evolve as written: for i = 0, 2, ... below the number of parents it reads parents
      i and i + 1, so an odd number of parents ends in an out-of-range read (None). Otherwise the
      result is the bred generation, exactly as large as the list of parents. */
  function NextGeneration(mop: MutationOperator, cop: CrossoverOperator, parents: seq<Individual>, draws: seq<PairDraws>, evaluate: Optimizer.Evaluator): (r: Option<seq<Individual>>)
    requires |draws| == |parents| / 2
    requires forall k | 0 <= k < |parents| :: Shaped(parents[k])
    ensures r.None? <==> |parents| % 2 == 1
    ensures r.Some? ==> |r.value| == |parents| && forall k | 0 <= k < |r.value| :: Sound(r.value[k], evaluate)
  {
    if |parents| % 2 == 1 then None
    else
      BredSound(mop, cop, parents, draws, evaluate);
      Some(Bred(mop, cop, parents, draws, evaluate))
  }

  /** evolve selects size / 2 parents, so whenever it succeeds on a non-empty population the new
      population has size / 2 individuals and is strictly smaller. */
  lemma EvolveHalves(mop: MutationOperator, cop: CrossoverOperator, xs: seq<Individual>, picks: seq<seq<nat>>, draws: seq<PairDraws>, evaluate: Optimizer.Evaluator)
    requires forall k | 0 <= k < |xs| :: Shaped(xs[k])
    requires |picks| == |xs| / 2 && PicksFit(picks, 3, |xs|) && |draws| == |xs| / 4
    requires NextGeneration(mop, cop, Selection(xs, 3, picks), draws, evaluate).Some?
    ensures |NextGeneration(mop, cop, Selection(xs, 3, picks), draws, evaluate).value| == |xs| / 2
    ensures 1 <= |xs| ==> |NextGeneration(mop, cop, Selection(xs, 3, picks), draws, evaluate).value| < |xs|
  {
  }

  /** When the number of tournaments is even, the as-written loop succeeds on the winners and
      yields their bred generation, as many individuals as tournaments, all sound. */
  lemma NextGenerationOfSelection(mop: MutationOperator, cop: CrossoverOperator, xs: seq<Individual>, picks: seq<seq<nat>>, draws: seq<PairDraws>, evaluate: Optimizer.Evaluator)
    requires forall k | 0 <= k < |xs| :: Sound(xs[k], evaluate)
    requires |picks| % 2 == 0 && PicksFit(picks, 3, |xs|) && |draws| == |picks| / 2
    ensures forall i | 0 <= i < |picks| :: Shaped(Selection(xs, 3, picks)[i])
    ensures NextGeneration(mop, cop, Selection(xs, 3, picks), draws, evaluate) == Some(Bred(mop, cop, Selection(xs, 3, picks), draws, evaluate))
    ensures |Bred(mop, cop, Selection(xs, 3, picks), draws, evaluate)| == |picks|
    ensures forall k | 0 <= k < |picks| :: Sound(Bred(mop, cop, Selection(xs, 3, picks), draws, evaluate)[k], evaluate)
  {
    SelectionSound(xs, 3, picks, evaluate);
    BredSound(mop, cop, Selection(xs, 3, picks), draws, evaluate);
  }

  /** With a population of 50, as TrafficLightGeneticAlgorithm configures it, evolve selects 25
      parents and its loop reads past the end of the list on the first call. */
  lemma FiftyIndividualsFail(mop: MutationOperator, cop: CrossoverOperator, xs: seq<Individual>, picks: seq<seq<nat>>, draws: seq<PairDraws>, evaluate: Optimizer.Evaluator)
    requires |xs| == 50 && forall k | 0 <= k < |xs| :: Shaped(xs[k])
    requires |picks| == |xs| / 2 && PicksFit(picks, 3, |xs|) && |draws| == |xs| / 4
    ensures |Selection(xs, 3, picks)| == 25
    ensures NextGeneration(mop, cop, Selection(xs, 3, picks), draws, evaluate).None?
  {
    var parents := Selection(xs, 3, picks);
    assert |parents| == |picks| == 25;
  }

  /** A corrected evolve: it selects 2 * ceil(size / 2) parents, an even number, breeds them in
      consecutive pairs and keeps the first `size` new individuals. For every population size,
      odd or even, it reads no parent out of range and keeps the population size, and every new
      individual is sound. */
  function KeptGeneration(mop: MutationOperator, cop: CrossoverOperator, xs: seq<Individual>, picks: seq<seq<nat>>, draws: seq<PairDraws>, evaluate: Optimizer.Evaluator): (r: seq<Individual>)
    requires forall k | 0 <= k < |xs| :: Sound(xs[k], evaluate)
    requires |picks| == 2 * ((|xs| + 1) / 2) && PicksFit(picks, 3, |xs|) && |draws| == (|xs| + 1) / 2
    ensures |r| == |xs|
    ensures forall k | 0 <= k < |r| :: Sound(r[k], evaluate)
  {
    SelectionSound(xs, 3, picks, evaluate);
    BredSound(mop, cop, Selection(xs, 3, picks), draws, evaluate);
    Bred(mop, cop, Selection(xs, 3, picks), draws, evaluate)[..|xs|]
  }

  /** In the corrected evolve, new individuals 2k and 2k + 1, where kept, are the brood of winners
      2k and 2k + 1 under the draws of pair k. */
  lemma KeptPairs(mop: MutationOperator, cop: CrossoverOperator, xs: seq<Individual>, picks: seq<seq<nat>>, draws: seq<PairDraws>, evaluate: Optimizer.Evaluator, k: nat)
    requires forall j | 0 <= j < |xs| :: Sound(xs[j], evaluate)
    requires |picks| == 2 * ((|xs| + 1) / 2) && PicksFit(picks, 3, |xs|) && |draws| == (|xs| + 1) / 2
    requires k < |draws|
    ensures 2 * k < |xs| ==>
      KeptGeneration(mop, cop, xs, picks, draws, evaluate)[2 * k]
        == Brood(mop, cop, Selection(xs, 3, picks)[2 * k], Selection(xs, 3, picks)[2 * k + 1], draws[k], evaluate)[0]
    ensures 2 * k + 1 < |xs| ==>
      KeptGeneration(mop, cop, xs, picks, draws, evaluate)[2 * k + 1]
        == Brood(mop, cop, Selection(xs, 3, picks)[2 * k], Selection(xs, 3, picks)[2 * k + 1], draws[k], evaluate)[1]
  {
    SelectionSound(xs, 3, picks, evaluate);
    BredPairs(mop, cop, Selection(xs, 3, picks), draws, evaluate, k);
  }

  /** Tournament winners are population members, so they are sound when the population is. */
  lemma SelectionSound(xs: seq<Individual>, tournamentSize: nat, picks: seq<seq<nat>>, evaluate: Optimizer.Evaluator)
    requires |picks| > 0 ==> 1 <= tournamentSize
    requires PicksFit(picks, tournamentSize, |xs|)
    requires forall k | 0 <= k < |xs| :: Sound(xs[k], evaluate)
    ensures forall i | 0 <= i < |picks| :: Sound(Selection(xs, tournamentSize, picks)[i], evaluate)
  {
    var r := Selection(xs, tournamentSize, picks);
    forall i | 0 <= i < |picks|
      ensures Sound(r[i], evaluate)
    {
      var j :| 0 <= j < |xs| && xs[j] == r[i];
    }
  }

  class Population {
    var individuals: seq<Individual>
    const mutationOperator: MutationOperator
    const crossoverOperator: CrossoverOperator
    const evaluate: Optimizer.Evaluator

    /** Every individual has four phase times and carries their fitness. */
    ghost predicate Valid()
      reads this
    {
      forall k | 0 <= k < |individuals| :: Sound(individuals[k], evaluate)
    }

    /** TrafficLightPopulation(populationSize, ...): populationSize individuals from the random
        constructor, individual k from the draws draws[k]. */
    constructor (populationSize: nat, mutationOperator: MutationOperator, crossoverOperator: CrossoverOperator,
                 minTime: real, maxTime: real, draws: seq<(real, real)>, evaluate: Optimizer.Evaluator)
      requires |draws| == populationSize
      ensures Valid()
      ensures this.mutationOperator == mutationOperator && this.crossoverOperator == crossoverOperator
      ensures this.evaluate == evaluate
      ensures |individuals| == populationSize
      ensures forall k | 0 <= k < populationSize ::
        individuals[k] == RandomIndividual(minTime, maxTime, draws[k].0, draws[k].1, evaluate)
    {
      this.mutationOperator := mutationOperator;
      this.crossoverOperator := crossoverOperator;
      this.evaluate := evaluate;
      individuals := seq(populationSize, k requires 0 <= k < populationSize =>
        RandomIndividual(minTime, maxTime, draws[k].0, draws[k].1, evaluate));
    }

    /** tournamentSelection: for each of the selectionCount tournaments the entrants drawn by its
        picks, then the least of them. */
    method TournamentSelection(tournamentSize: nat, selectionCount: nat, picks: seq<seq<nat>>) returns (selected: seq<Individual>)
      requires |picks| == selectionCount && (selectionCount > 0 ==> 1 <= tournamentSize)
      requires PicksFit(picks, tournamentSize, |individuals|)
      ensures selected == Selection(individuals, tournamentSize, picks)
    {
      selected := [];
      var i := 0;
      while i < selectionCount
        invariant 0 <= i <= selectionCount
        invariant selected == Selection(individuals, tournamentSize, picks[..i])
      {
        var tournament := Entered(picks[i]);
        selected := selected + [tournament[MinOf(tournament)]];
        SelectionExtend(individuals, tournamentSize, picks, i);
        i := i + 1;
      }
      assert picks[..selectionCount] == picks;
    }

    /** The tournament list of tournamentSelection: the individuals at the drawn indices, added
        one by one. */
    method Entered(picks: seq<nat>) returns (tournament: seq<Individual>)
      requires forall j | 0 <= j < |picks| :: picks[j] < |individuals|
      ensures tournament == Entrants(individuals, picks)
    {
      tournament := [];
      var j := 0;
      while j < |picks|
        invariant 0 <= j <= |picks|
        invariant tournament == Entrants(individuals, picks[..j])
      {
        tournament := tournament + [individuals[picks[j]]];
        j := j + 1;
      }
      assert picks[..|picks|] == picks;
    }

    /** evolve: size / 2 parents by tournaments of three, then the loop over consecutive pairs,
        then the new list replaces the old one. The source demands an even number of parents; the
        result is the as-written next generation, half the old size. */
    method Evolve(picks: seq<seq<nat>>, draws: seq<PairDraws>)
      requires Valid()
      requires (|individuals| / 2) % 2 == 0
      requires |picks| == |individuals| / 2 && PicksFit(picks, 3, |individuals|)
      requires |draws| == |individuals| / 4
      modifies this
      ensures Valid()
      ensures |individuals| == old(|individuals|) / 2
      ensures NextGeneration(mutationOperator, crossoverOperator, Selection(old(individuals), 3, picks), draws, evaluate) == Some(individuals)
    {
      var parents := TournamentSelection(3, |individuals| / 2, picks);
      SelectionSound(individuals, 3, picks, evaluate);
      var nextGeneration := BreedAll(parents, draws);
      NextGenerationOfSelection(mutationOperator, crossoverOperator, individuals, picks, draws, evaluate);
      individuals := nextGeneration;
    }

    /** The loop of evolve over consecutive pairs of parents, appending the brood of each pair. */
    method BreedAll(parents: seq<Individual>, draws: seq<PairDraws>) returns (nextGeneration: seq<Individual>)
      requires |parents| == 2 * |draws|
      requires forall k | 0 <= k < |parents| :: Shaped(parents[k])
      ensures nextGeneration == Bred(mutationOperator, crossoverOperator, parents, draws, evaluate)
    {
      nextGeneration := [];
      var i := 0;
      var pair := 0;
      while i < |parents|
        invariant i == 2 * pair && pair <= |draws|
        invariant nextGeneration == Bred(mutationOperator, crossoverOperator, parents[..i], draws[..pair], evaluate)
      {
        nextGeneration := AddBrood(parents, draws, i, pair, nextGeneration);
        i := i + 2;
        pair := pair + 1;
      }
      assert parents[..i] == parents && draws[..pair] == draws;
    }

    /** One turn of the loop of evolve: the brood of the pair at i appended to what the earlier
        turns built. */
    method AddBrood(parents: seq<Individual>, draws: seq<PairDraws>, i: nat, pair: nat, sofar: seq<Individual>) returns (next: seq<Individual>)
      requires |parents| == 2 * |draws| && pair < |draws| && i == 2 * pair
      requires forall k | 0 <= k < |parents| :: Shaped(parents[k])
      requires sofar == Bred(mutationOperator, crossoverOperator, parents[..i], draws[..pair], evaluate)
      ensures next == Bred(mutationOperator, crossoverOperator, parents[..i + 2], draws[..pair + 1], evaluate)
    {
      var offspring := BreedPair(parents[i], parents[i + 1], draws[pair]);
      BredExtend(mutationOperator, crossoverOperator, parents, draws, evaluate, i, pair);
      next := sofar + offspring;
    }

    /** One turn of the loop of evolve: crossover of the pair, then both children mutated, in
        the order they are added. */
    method BreedPair(p1: Individual, p2: Individual, d: PairDraws) returns (pair: seq<Individual>)
      requires Shaped(p1) && Shaped(p2)
      ensures pair == Brood(mutationOperator, crossoverOperator, p1, p2, d, evaluate)
    {
      var offspring := Crossover(crossoverOperator, p1, p2, d.cross, evaluate);
      pair := [Mutate(mutationOperator, offspring[0], d.mutate1, evaluate)];
      pair := pair + [Mutate(mutationOperator, offspring[1], d.mutate2, evaluate)];
    }

    /** getBestIndividual: Collections.min of the list, the first individual of least fitness; it
        throws on an empty population. */
    function GetBestIndividual(): (best: Individual)
      reads this
      requires |individuals| > 0
      ensures best in individuals
      ensures forall k | 0 <= k < |individuals| :: best.fitness <= individuals[k].fitness
      ensures exists i | 0 <= i < |individuals| :: best == individuals[i] && forall k | 0 <= k < i :: best.fitness < individuals[k].fitness
    {
      individuals[MinOf(individuals)]
    }
  }
}
