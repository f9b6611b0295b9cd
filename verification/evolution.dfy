/** The integer genetic algorithm of EVOLUTIONARY_SELECTION (Individual and Population): genes are
    the four phase durations as ints, lower fitness is better.

    The constants the classes import from TrafficLightOptimizer (MIN_PHASE_TIME, MAX_PHASE_TIME,
    MUTATION_RATE, MUTATION_DEV, CROSSOVER_RATE, CROSSOVER_ALPHA, penalty) are a GaConfig, the
    shared Random is replaced by explicit draws, and the evaluation of a gene vector (the metric of
    goStats, or an ExceptionInvalidTimeDelay) is an abstract Evaluator. */
module Evolution {
  import opened Common

  datatype GaConfig = GaConfig(
    minPhaseTime: int, maxPhaseTime: int,
    mutationRate: real, mutationDev: int,
    crossoverRate: real, crossoverAlpha: real,
    penalty: real)

  /** The fitness of a gene vector, or None when the evaluation throws ExceptionInvalidTimeDelay. */
  type Evaluator = seq<int> -> Option<real>

  /** evaluateFitness: the evaluator's value, or the penalty when the evaluation fails. */
  function FitnessOf(evaluate: Evaluator, penalty: real, genes: seq<int>): (f: real)
    ensures evaluate(genes).None? ==> f == penalty
    ensures evaluate(genes).Some? ==> f == evaluate(genes).value
  {
    match evaluate(genes)
    case None => penalty
    case Some(v) => v
  }

  /** Number of even indices below n: how many genes mutate draws for. */
  function EvenCount(n: nat): nat { (n + 1) / 2 }

  /** One gene under mutate: when its draw passes the gate it moves by step - MUTATION_DEV and is
      clamped into [MIN_PHASE_TIME, MAX_PHASE_TIME]. */
  function MutatedGene(x: int, gate: real, step: int, c: GaConfig): int
  {
    if gate < c.mutationRate then ClampInt(x + step - c.mutationDev, c.minPhaseTime, c.maxPhaseTime) else x
  }

  /** The genes after mutate. gates[k] is the nextDouble() drawn for gene 2k and steps[k] the
      nextInt(|MUTATION_DEV| * 2 + 1) drawn when it passes. Only even genes change; a gene whose
      draw is at least MUTATION_RATE keeps its value; a changed gene lands in
      [MIN_PHASE_TIME, MAX_PHASE_TIME] and, when it started there, moves by at most MUTATION_DEV. */
  function MutatedGenes(g: seq<int>, gates: seq<real>, steps: seq<int>, c: GaConfig): (r: seq<int>)
    requires EvenCount(|g|) <= |gates| && EvenCount(|g|) <= |steps|
    ensures |r| == |g|
    ensures forall i | 0 <= i < |g| && i % 2 == 1 :: r[i] == g[i]
    ensures forall i | 0 <= i < |g| && i % 2 == 0 && c.mutationRate <= gates[i / 2] :: r[i] == g[i]
    ensures c.minPhaseTime <= c.maxPhaseTime ==>
      forall i | 0 <= i < |g| && i % 2 == 0 && gates[i / 2] < c.mutationRate :: c.minPhaseTime <= r[i] <= c.maxPhaseTime
    ensures forall i | 0 <= i < |g| && c.minPhaseTime <= g[i] <= c.maxPhaseTime && 0 <= steps[i / 2] <= 2 * c.mutationDev ::
      g[i] - c.mutationDev <= r[i] <= g[i] + c.mutationDev
  {
    seq(|g|, i requires 0 <= i < |g| => if i % 2 == 0 then MutatedGene(g[i], gates[i / 2], steps[i / 2], c) else g[i])
  }

  /** A chromosome: its phase times and the fitness last computed for them. */
  class Individual {
    const phaseTimes: array<int>
    var fitness: real
    const evaluate: Evaluator
    const config: GaConfig

    /** fitness is that of the current genes. */
    ghost predicate Valid()
      reads this, phaseTimes
    {
      fitness == FitnessOf(evaluate, config.penalty, phaseTimes[..])
    }

    /** Individual(int[]): stores a copy of the given array, then evaluates it. */
    constructor (genes: array<int>, evaluate: Evaluator, config: GaConfig)
      ensures fresh(phaseTimes) && phaseTimes[..] == genes[..]
      ensures this.evaluate == evaluate && this.config == config && Valid()
    {
      phaseTimes := new int[genes.Length](i reads genes requires 0 <= i < genes.Length => genes[i]);
      this.evaluate := evaluate;
      this.config := config;
      new;
      fitness := FitnessOf(evaluate, config.penalty, phaseTimes[..]);
    }

    /** mutate: walks the even genes in place, then evaluates once. */
    method Mutate(gates: seq<real>, steps: seq<int>)
      requires EvenCount(phaseTimes.Length) <= |gates| && EvenCount(phaseTimes.Length) <= |steps|
      modifies this, phaseTimes
      ensures phaseTimes[..] == MutatedGenes(old(phaseTimes[..]), gates, steps, config)
      ensures Valid()
    {
      ghost var before := phaseTimes[..];
      var i := 0;
      while i < phaseTimes.Length
        invariant 0 <= i <= phaseTimes.Length + 1 && i % 2 == 0
        invariant forall k | 0 <= k < phaseTimes.Length ::
          phaseTimes[k] == if k < i then MutatedGenes(before, gates, steps, config)[k] else before[k]
      {
        if gates[i / 2] < config.mutationRate {
          phaseTimes[i] := ClampInt(phaseTimes[i] + steps[i / 2] - config.mutationDev, config.minPhaseTime, config.maxPhaseTime);
        }
        i := i + 2;
      }
      fitness := FitnessOf(evaluate, config.penalty, phaseTimes[..]);
    }
  }

  /** Number of draws in one tournament of tournamentSelection. */
  const TournamentSize: nat := 5

  /** The index tournamentSelection settles on: the first draw, replaced by every later draw whose
      fitness is strictly lower. It is one of the draws, no draw beats it, and no earlier draw ties
      with it. */
  function Tournament(fits: seq<real>, picks: seq<nat>): (w: nat)
    requires |picks| >= 1 && forall k | 0 <= k < |picks| :: picks[k] < |fits|
    ensures w < |fits|
    ensures forall k | 0 <= k < |picks| :: fits[w] <= fits[picks[k]]
    ensures exists j | 0 <= j < |picks| :: w == picks[j] && forall k | 0 <= k < j :: fits[w] < fits[picks[k]]
  {
    if |picks| == 1 then picks[0]
    else
      var n := |picks| - 1;
      var w := Tournament(fits, picks[..n]);
      var c := picks[n];
      assert forall k | 0 <= k < n :: picks[..n][k] == picks[k];
      if fits[c] < fits[w] then
        assert forall k | 0 <= k < n :: fits[c] < fits[picks[k]];
        c
      else w
  }

  /** Every index below n, in order: the candidates of getBestIndividual. */
  function Indices(n: nat): (r: seq<nat>)
    ensures |r| == n && forall k | 0 <= k < n :: r[k] == k
  {
    seq(n, k requires 0 <= k < n => k as nat)
  }

  /** A tournament in which every index takes part once, in order, settles on an index of least
      fitness, and on the first such index. */
  lemma TournamentOverAll(fits: seq<real>)
    requires |fits| > 0
    ensures forall k | 0 <= k < |fits| :: fits[Tournament(fits, Indices(|fits|))] <= fits[k]
    ensures forall k | 0 <= k < Tournament(fits, Indices(|fits|)) :: fits[Tournament(fits, Indices(|fits|))] < fits[k]
  {
    var picks := Indices(|fits|);
    var w := Tournament(fits, picks);
    forall k | 0 <= k < |fits|
      ensures fits[w] <= fits[k]
    {
      assert picks[k] == k;
    }
    var j :| 0 <= j < |picks| && w == picks[j] && forall k | 0 <= k < j :: fits[w] < fits[picks[k]];
    forall k | 0 <= k < w
      ensures fits[w] < fits[k]
    {
      assert picks[k] == k;
    }
  }

  /** crossover: gene i comes from parent2 when its draw is below CROSSOVER_ALPHA and from parent1
      otherwise, so the child has parent1's length and every gene is one of the parents' genes at
      that index. */
  function UniformCrossover<T>(p1: seq<T>, p2: seq<T>, mix: seq<real>, alpha: real): (child: seq<T>)
    requires |p1| <= |p2| && |p1| <= |mix|
    ensures |child| == |p1|
    ensures forall i | 0 <= i < |p1| :: child[i] == p1[i] || child[i] == p2[i]
    ensures forall i | 0 <= i < |p1| :: mix[i] < alpha ==> child[i] == p2[i]
    ensures forall i | 0 <= i < |p1| :: alpha <= mix[i] ==> child[i] == p1[i]
    ensures (forall i | 0 <= i < |p1| :: alpha <= mix[i]) ==> child == p1
    ensures (forall i | 0 <= i < |p1| :: mix[i] < alpha) ==> child == p2[..|p1|]
  {
    seq(|p1|, i requires 0 <= i < |p1| => if mix[i] < alpha then p2[i] else p1[i])
  }

  /** The draws that fill one slot of the next generation: the nextDouble() that chooses between
      createChild and createMutatedIndividual, the five indices of each tournament, one draw per
      gene for crossover, the index of the individual to clone, and the draws of mutate. */
  datatype SlotDraws = SlotDraws(
    reproduce: real,
    tournament1: seq<nat>, tournament2: seq<nat>, mix: seq<real>,
    donor: nat,
    gates: seq<real>, steps: seq<int>)

  /** The draws fit a population of n individuals with `width` genes each. */
  predicate DrawsFit(d: SlotDraws, n: nat, width: nat)
  {
    && |d.tournament1| == TournamentSize && |d.tournament2| == TournamentSize
    && (forall k | 0 <= k < TournamentSize :: d.tournament1[k] < n && d.tournament2[k] < n)
    && d.donor < n
    && width <= |d.mix|
    && EvenCount(width) <= |d.gates| && EvenCount(width) <= |d.steps|
  }

  /** The genes of the individual that createChild or createMutatedIndividual makes from a
      population with these genes and fitnesses. Its odd genes are those of some member; its even
      genes are those of some member or lie in [MIN_PHASE_TIME, MAX_PHASE_TIME]. */
  function Offspring(genes: seq<seq<int>>, fits: seq<real>, d: SlotDraws, c: GaConfig, width: nat): (r: seq<int>)
    requires |fits| == |genes| && forall j | 0 <= j < |genes| :: |genes[j]| == width
    requires DrawsFit(d, |genes|, width)
    ensures |r| == width
    ensures forall i | 0 <= i < width && i % 2 == 1 :: exists j | 0 <= j < |genes| :: r[i] == genes[j][i]
    ensures c.minPhaseTime <= c.maxPhaseTime ==> forall i | 0 <= i < width ::
      (exists j | 0 <= j < |genes| :: r[i] == genes[j][i]) || c.minPhaseTime <= r[i] <= c.maxPhaseTime
  {
    if d.reproduce < c.crossoverRate then
      var w1 := Tournament(fits, d.tournament1);
      var w2 := Tournament(fits, d.tournament2);
      var mixed := UniformCrossover(genes[w1], genes[w2], d.mix, c.crossoverAlpha);
      var r := MutatedGenes(mixed, d.gates, d.steps, c);
      assert forall i | 0 <= i < width :: r[i] == mixed[i] || (c.minPhaseTime <= c.maxPhaseTime ==> c.minPhaseTime <= r[i] <= c.maxPhaseTime);
      r
    else
      MutatedGenes(genes[d.donor], d.gates, d.steps, c)
  }

  /** Non-decreasing fitness: the order Arrays.sort leaves with comparingDouble(fitness). */
  ghost predicate SortedByFitness(s: seq<Individual>)
    reads set k | 0 <= k < |s| :: s[k]
  {
    forall i, j | 0 <= i < j < |s| :: s[i].fitness <= s[j].fitness
  }

  /** r is a ranking of s: a permutation of it in non-decreasing fitness. */
  ghost predicate IsRanking(r: seq<Individual>, s: seq<Individual>)
    reads set k | 0 <= k < |r| :: r[k]
  {
    multiset(r) == multiset(s) && SortedByFitness(r)
  }

  /** eliteCount of evolve: a fifth of the population, rounded down. */
  function EliteCount(n: nat): nat { n / 5 }

  function Fitnesses(s: seq<Individual>): (r: seq<real>)
    reads set k | 0 <= k < |s| :: s[k]
    ensures |r| == |s| && forall k | 0 <= k < |s| :: r[k] == s[k].fitness
  {
    seq(|s|, k requires 0 <= k < |s| reads s => s[k].fitness)
  }

  ghost function GenesOf(s: seq<Individual>): (r: seq<seq<int>>)
    reads set k | 0 <= k < |s| :: s[k].phaseTimes
    ensures |r| == |s| && forall k | 0 <= k < |s| :: r[k] == s[k].phaseTimes[..]
  {
    seq(|s|, k requires 0 <= k < |s| reads set j | 0 <= j < |s| :: s[j].phaseTimes => s[k].phaseTimes[..])
  }

  /** The population of one generation. */
  class Population {
    var individuals: array<Individual>
    const evaluate: Evaluator
    const config: GaConfig
    /** The common number of genes of every individual. */
    ghost const geneCount: nat

    ghost function Members(): set<object>
      reads this, individuals
    {
      (set k | 0 <= k < individuals.Length :: individuals[k])
      + (set k | 0 <= k < individuals.Length :: individuals[k].phaseTimes)
    }

    /** x is evaluated with the shared evaluator and constants, has geneCount genes, and carries
        the fitness of its genes. */
    ghost predicate Member(x: Individual)
      reads x, x.phaseTimes
    {
      x.Valid() && x.evaluate == evaluate && x.config == config && x.phaseTimes.Length == geneCount
    }

    /** Every individual is a member in the sense of Member. */
    ghost predicate Valid()
      reads this, individuals, Members()
    {
      forall k | 0 <= k < individuals.Length :: Member(individuals[k])
    }

    /** Population(size, initialPhaseTimes): size individuals, each a copy of the initial phase
        times whose genes 0 and 2 are raised by MIN_PHASE_TIME plus a nextInt(MAX - MIN + 1) draw
        (shifts0[k] and shifts2[k] for individual k); the other genes are copied. */
    constructor (size: int, initialPhaseTimes: array<int>, shifts0: seq<int>, shifts2: seq<int>,
                 evaluate: Evaluator, config: GaConfig)
      requires 0 <= size && 3 <= initialPhaseTimes.Length
      requires |shifts0| == size && |shifts2| == size
      ensures Valid() && this.evaluate == evaluate && this.config == config
      ensures geneCount == initialPhaseTimes.Length
      ensures individuals.Length == size
      ensures forall k | 0 <= k < size ::
        individuals[k].phaseTimes[..] == initialPhaseTimes[..]
          [0 := initialPhaseTimes[0] + shifts0[k] + config.minPhaseTime]
          [2 := initialPhaseTimes[2] + shifts2[k] + config.minPhaseTime]
      ensures forall k | 0 <= k < size && 0 <= shifts0[k] <= config.maxPhaseTime - config.minPhaseTime ::
        initialPhaseTimes[0] + config.minPhaseTime <= individuals[k].phaseTimes[0] <= initialPhaseTimes[0] + config.maxPhaseTime
      ensures forall k | 0 <= k < size && 0 <= shifts2[k] <= config.maxPhaseTime - config.minPhaseTime ::
        initialPhaseTimes[2] + config.minPhaseTime <= individuals[k].phaseTimes[2] <= initialPhaseTimes[2] + config.maxPhaseTime
    {
      this.evaluate := evaluate;
      this.config := config;
      geneCount := initialPhaseTimes.Length;
      individuals := new Individual[0];
      new;
      var made := VariedIndividuals(size, initialPhaseTimes, shifts0, shifts2, evaluate, config);
      individuals := new Individual[size](k requires 0 <= k < size => made[k]);
    }

    /** Arrays.sort(individuals, comparingDouble(fitness)), as a stable insertion sort: the array
        ends up a permutation of itself in non-decreasing fitness order. */
    method SortByFitness()
      requires Valid()
      modifies individuals
      ensures multiset(individuals[..]) == old(multiset(individuals[..]))
      ensures SortedByFitness(individuals[..])
      ensures Valid()
    {
      ghost var before := individuals[..];
      var i := 0;
      while i < individuals.Length
        invariant 0 <= i <= individuals.Length
        invariant forall p, q | 0 <= p < q < i :: individuals[p].fitness <= individuals[q].fitness
        invariant multiset(individuals[..]) == old(multiset(individuals[..]))
      {
        InsertByFitness(individuals, i);
        i := i + 1;
      }
      forall k | 0 <= k < individuals.Length
        ensures Member(individuals[k])
      {
        assert individuals[k] in multiset(before);
        var j :| 0 <= j < |before| && before[j] == individuals[k];
        assert old(Member(before[j]));
      }
    }

    /** tournamentSelection: the individual the five index draws settle on, the first draw
        replaced by every later one of strictly lower fitness. */
    method TournamentSelection(picks: seq<nat>) returns (best: Individual)
      requires |picks| == TournamentSize && forall k | 0 <= k < TournamentSize :: picks[k] < individuals.Length
      ensures best == individuals[Tournament(Fitnesses(individuals[..]), picks)]
    {
      ghost var fits := Fitnesses(individuals[..]);
      best := individuals[picks[0]];
      ghost var w := picks[0];
      assert picks[..1] == [picks[0]];
      var i := 1;
      while i < TournamentSize
        invariant 1 <= i <= TournamentSize
        invariant w == Tournament(fits, picks[..i]) && best == individuals[w]
      {
        var candidate := individuals[picks[i]];
        assert picks[..i + 1][..i] == picks[..i];
        if candidate.fitness < best.fitness {
          best := candidate;
          w := picks[i];
        }
        i := i + 1;
      }
      assert picks[..TournamentSize] == picks;
    }

    /** crossover: a fresh copy of parent1 in which every gene whose draw is below
        CROSSOVER_ALPHA is overwritten with parent2's. */
    method Crossover(parent1: array<int>, parent2: array<int>, mix: seq<real>) returns (child: array<int>)
      requires parent1.Length <= parent2.Length && parent1.Length <= |mix|
      ensures fresh(child)
      ensures child[..] == UniformCrossover(parent1[..], parent2[..], mix, config.crossoverAlpha)
    {
      child := new int[parent1.Length](j reads parent1 requires 0 <= j < parent1.Length => parent1[j]);
      var i := 0;
      while i < child.Length
        invariant 0 <= i <= child.Length
        invariant forall k | 0 <= k < child.Length ::
          child[k] == if k < i then UniformCrossover(parent1[..], parent2[..], mix, config.crossoverAlpha)[k] else parent1[k]
      {
        if mix[i] < config.crossoverAlpha {
          child[i] := parent2[i];
        }
        i := i + 1;
      }
    }

    /** createChild: two tournaments, crossover of the winners' genes, a new individual from
        them, then mutate. */
    method CreateChild(d: SlotDraws) returns (child: Individual)
      requires Valid() && DrawsFit(d, individuals.Length, geneCount)
      ensures fresh(child) && fresh(child.phaseTimes)
      ensures Made(child, MutatedGenes(
        UniformCrossover(old(GenesOf(individuals[..]))[Tournament(old(Fitnesses(individuals[..])), d.tournament1)],
                         old(GenesOf(individuals[..]))[Tournament(old(Fitnesses(individuals[..])), d.tournament2)],
                         d.mix, config.crossoverAlpha),
        d.gates, d.steps, config))
    {
      ghost var genes, fits := GenesOf(individuals[..]), Fitnesses(individuals[..]);
      var parent1 := TournamentSelection(d.tournament1);
      var parent2 := TournamentSelection(d.tournament2);
      ghost var w1, w2 := Tournament(fits, d.tournament1), Tournament(fits, d.tournament2);
      assert parent1.phaseTimes[..] == genes[w1] && parent1.phaseTimes.Length == geneCount;
      assert parent2.phaseTimes[..] == genes[w2] && parent2.phaseTimes.Length == geneCount;
      var childPhaseTimes := Crossover(parent1.phaseTimes, parent2.phaseTimes, d.mix);
      ghost var mixed := UniformCrossover(genes[w1], genes[w2], d.mix, config.crossoverAlpha);
      assert childPhaseTimes[..] == mixed;
      child := new Individual(childPhaseTimes, evaluate, config);
      child.Mutate(d.gates, d.steps);
    }

    /** createMutatedIndividual: a new individual from the genes of the drawn one, then mutate. */
    method CreateMutatedIndividual(d: SlotDraws) returns (mutant: Individual)
      requires Valid() && DrawsFit(d, individuals.Length, geneCount)
      ensures fresh(mutant) && fresh(mutant.phaseTimes)
      ensures Made(mutant, MutatedGenes(old(GenesOf(individuals[..]))[d.donor], d.gates, d.steps, config))
    {
      mutant := new Individual(individuals[d.donor].phaseTimes, evaluate, config);
      mutant.Mutate(d.gates, d.steps);
    }

    /** evolve: sorts the population by fitness, keeps the first len/5 individuals as they are,
        and fills every other slot k with a fresh individual made from draws[k]. The new
        generation has the old size; its first len/5 individuals are the first len/5 of `ranked`,
        a ranking of the old population; no old individual changes. */
    method Evolve(draws: seq<SlotDraws>) returns (ghost ranked: seq<Individual>)
      requires Valid()
      requires |draws| == individuals.Length
      requires forall k | 0 <= k < |draws| :: DrawsFit(draws[k], individuals.Length, geneCount)
      modifies this, individuals
      ensures Valid()
      ensures individuals.Length == old(individuals.Length) == |ranked|
      ensures forall x | x in old(individuals[..]) :: x.fitness == old(x.fitness) && x.phaseTimes[..] == old(x.phaseTimes[..])
      ensures IsRanking(ranked, old(individuals[..]))
      ensures forall j | 0 <= j < |ranked| :: ranked[j].phaseTimes.Length == geneCount
      ensures individuals[..EliteCount(|ranked|)] == ranked[..EliteCount(|ranked|)]
      ensures forall k | EliteCount(|ranked|) <= k < |ranked| ::
        && fresh(individuals[k])
        && individuals[k].phaseTimes[..] == Offspring(GenesOf(ranked), Fitnesses(ranked), draws[k], config, geneCount)
    {
      SortByFitness();
      ranked := individuals[..];
      ghost var genes, fits := GenesOf(ranked), Fitnesses(ranked);
      Replace(draws);
      assert GenesOf(ranked) == genes && Fitnesses(ranked) == fits;
    }

    /** The part of evolve after the sort: the bred generation replaces the array. */
    method Replace(draws: seq<SlotDraws>)
      requires Valid()
      requires |draws| == individuals.Length
      requires forall k | 0 <= k < |draws| :: DrawsFit(draws[k], individuals.Length, geneCount)
      modifies this
      ensures Valid()
      ensures individuals.Length == old(individuals.Length)
      ensures individuals[..EliteCount(individuals.Length)] == old(individuals[..EliteCount(individuals.Length)])
      ensures forall k | EliteCount(individuals.Length) <= k < individuals.Length ::
        && fresh(individuals[k])
        && individuals[k].phaseTimes[..] == Offspring(old(GenesOf(individuals[..])), old(Fitnesses(individuals[..])), draws[k], config, geneCount)
    {
      var newGeneration := Breed(draws);
      Install(newGeneration);
      assert forall k | 0 <= k < individuals.Length :: Member(individuals[k]);
    }

    /** individuals = newGeneration: a fresh array holding the given individuals. */
    method Install(next: seq<Individual>)
      modifies this
      ensures fresh(individuals) && individuals[..] == next
    {
      individuals := new Individual[|next|](k requires 0 <= k < |next| => next[k]);
    }

    /** The loop of evolve over the sorted population: the first len/5 individuals as they are,
        then for every later slot k a fresh individual made from draws[k] by createChild or
        createMutatedIndividual. Nothing that exists before is changed. */
    method Breed(draws: seq<SlotDraws>) returns (next: seq<Individual>)
      requires Valid()
      requires |draws| == individuals.Length
      requires forall k | 0 <= k < |draws| :: DrawsFit(draws[k], individuals.Length, geneCount)
      ensures |next| == individuals.Length
      ensures next[..EliteCount(individuals.Length)] == individuals[..EliteCount(individuals.Length)]
      ensures forall k | 0 <= k < |next| :: Member(next[k])
      ensures forall k | EliteCount(individuals.Length) <= k < |next| ::
        fresh(next[k]) && Made(next[k], Offspring(old(GenesOf(individuals[..])), old(Fitnesses(individuals[..])), draws[k], config, geneCount))
    {
      ghost var genes, fits := GenesOf(individuals[..]), Fitnesses(individuals[..]);
      var n := individuals.Length;
      var eliteCount := EliteCount(n);
      next := individuals[..eliteCount];
      var i := eliteCount;
      while i < n
        invariant eliteCount <= i <= n && |next| == i
        invariant GenesOf(individuals[..]) == genes && Fitnesses(individuals[..]) == fits
        invariant next[..eliteCount] == individuals[..eliteCount]
        invariant forall k | eliteCount <= k < |next| :: fresh(next[k])
        invariant forall k | eliteCount <= k < |next| :: Made(next[k], Offspring(genes, fits, draws[k], config, geneCount))
      {
        var child := NextOffspring(next, draws, eliteCount, genes, fits);
        next := next + [child];
        i := i + 1;
      }
      forall k | 0 <= k < eliteCount
        ensures Member(next[k])
      {
        assert next[k] == next[..eliteCount][k] == individuals[k];
      }
    }

    /** The individual for the slot after `built`, made by createChild or
        createMutatedIndividual from its draws; the individuals already made, from slot start on,
        are left as they are. */
    method NextOffspring(built: seq<Individual>, draws: seq<SlotDraws>, start: nat, ghost genes: seq<seq<int>>, ghost fits: seq<real>)
      returns (child: Individual)
      requires Valid() && genes == GenesOf(individuals[..]) && fits == Fitnesses(individuals[..])
      requires start <= |built| < |draws|
      requires forall k | start <= k < |draws| :: DrawsFit(draws[k], individuals.Length, geneCount)
      requires forall k | start <= k < |built| :: Made(built[k], Offspring(genes, fits, draws[k], config, geneCount))
      ensures fresh(child)
      ensures forall k | start <= k < |built| + 1 ::
        Made((built + [child])[k], Offspring(genes, fits, draws[k], config, geneCount))
    {
      child := CreateOffspring(draws[|built|]);
      forall k | start <= k < |built| + 1
        ensures Made((built + [child])[k], Offspring(genes, fits, draws[k], config, geneCount))
      {
        if k < |built| {
          assert (built + [child])[k] == built[k];
        }
      }
    }

    /** One slot of the loop of evolve: createChild when the draw is below CROSSOVER_RATE,
        createMutatedIndividual otherwise. */
    method CreateOffspring(d: SlotDraws) returns (child: Individual)
      requires Valid() && DrawsFit(d, individuals.Length, geneCount)
      ensures fresh(child)
      ensures Made(child, Offspring(old(GenesOf(individuals[..])), old(Fitnesses(individuals[..])), d, config, geneCount))
    {
      if d.reproduce < config.crossoverRate {
        child := CreateChild(d);
      } else {
        child := CreateMutatedIndividual(d);
      }
    }

    /** x is a member whose genes are g. */
    ghost predicate Made(x: Individual, g: seq<int>)
      reads x, x.phaseTimes
    {
      Member(x) && x.phaseTimes[..] == g
    }

    /** getBestIndividual: the first individual of least fitness, or null for an empty
        population. */
    function GetBestIndividual(): (best: Individual?)
      reads this, individuals, set k | 0 <= k < individuals.Length :: individuals[k]
      ensures best == null <==> individuals.Length == 0
      ensures best != null ==> best in individuals[..]
      ensures best != null ==> forall k | 0 <= k < individuals.Length :: best.fitness <= individuals[k].fitness
      ensures best != null ==> exists j | 0 <= j < individuals.Length ::
        best == individuals[j] && forall k | 0 <= k < j :: best.fitness < individuals[k].fitness
    {
      if individuals.Length == 0 then null
      else
        var fits := Fitnesses(individuals[..]);
        TournamentOverAll(fits);
        individuals[Tournament(fits, Indices(individuals.Length))]
    }
  }

  /** One pass of insertion sort: moves a[i] left past every element of strictly larger fitness,
      so that a[..i + 1] is sorted when a[..i] was. */
  method InsertByFitness(a: array<Individual>, i: nat)
    requires i < a.Length
    requires forall p, q | 0 <= p < q < i :: a[p].fitness <= a[q].fitness
    modifies a
    ensures forall p, q | 0 <= p < q <= i :: a[p].fitness <= a[q].fitness
    ensures multiset(a[..]) == old(multiset(a[..]))
  {
    var j := i;
    while 0 < j && a[j].fitness < a[j - 1].fitness
      invariant 0 <= j <= i
      invariant forall p, q | 0 <= p < q <= i && p != j && q != j :: a[p].fitness <= a[q].fitness
      invariant 0 < j < i ==> a[j - 1].fitness <= a[j + 1].fitness
      invariant j < i ==> a[j].fitness < a[j + 1].fitness
      invariant multiset(a[..]) == old(multiset(a[..]))
    {
      SwapAdjacent(a, j);
      j := j - 1;
    }
  }

  /** Exchanges a[j - 1] and a[j]. */
  method SwapAdjacent(a: array<Individual>, j: nat)
    requires 0 < j < a.Length
    modifies a
    ensures a[..] == old(a[..])[j - 1 := old(a[j])][j := old(a[j - 1])]
    ensures multiset(a[..]) == old(multiset(a[..]))
  {
    a[j - 1], a[j] := a[j], a[j - 1];
  }

  /** The individuals of the Population constructor: for each k a fresh individual made from a
      copy of the initial phase times with shifts0[k] + MIN_PHASE_TIME added to gene 0 and
      shifts2[k] + MIN_PHASE_TIME to gene 2. A draw that nextInt(MAX - MIN + 1) can return, in
      [0, MAX - MIN], moves its gene by an amount in [MIN, MAX]. */
  method VariedIndividuals(size: nat, initial: array<int>, shifts0: seq<int>, shifts2: seq<int>,
                           evaluate: Evaluator, config: GaConfig)
    returns (made: seq<Individual>)
    requires 3 <= initial.Length && |shifts0| == size && |shifts2| == size
    ensures |made| == size
    ensures forall k | 0 <= k < size ::
      && made[k].Valid() && made[k].evaluate == evaluate && made[k].config == config
      && made[k].phaseTimes[..] == initial[..]
           [0 := initial[0] + shifts0[k] + config.minPhaseTime]
           [2 := initial[2] + shifts2[k] + config.minPhaseTime]
    ensures forall k | 0 <= k < size && 0 <= shifts0[k] <= config.maxPhaseTime - config.minPhaseTime ::
      initial[0] + config.minPhaseTime <= made[k].phaseTimes[0] <= initial[0] + config.maxPhaseTime
    ensures forall k | 0 <= k < size && 0 <= shifts2[k] <= config.maxPhaseTime - config.minPhaseTime ::
      initial[2] + config.minPhaseTime <= made[k].phaseTimes[2] <= initial[2] + config.maxPhaseTime
  {
    made := [];
    var i := 0;
    while i < size
      invariant 0 <= i <= size && |made| == i
      invariant forall k | 0 <= k < i ::
        && made[k].Valid() && made[k].evaluate == evaluate && made[k].config == config
        && made[k].phaseTimes[..] == initial[..]
             [0 := initial[0] + shifts0[k] + config.minPhaseTime]
             [2 := initial[2] + shifts2[k] + config.minPhaseTime]
    {
      var varied := VariedCopy(initial, shifts0[i] + config.minPhaseTime, shifts2[i] + config.minPhaseTime);
      var individual := new Individual(varied, evaluate, config);
      made := made + [individual];
      i := i + 1;
    }
  }

  /** The variedPhaseTimes of the Population constructor: a fresh copy with add0 added to gene 0
      and add2 to gene 2. */
  method VariedCopy(initial: array<int>, add0: int, add2: int) returns (varied: array<int>)
    requires 3 <= initial.Length
    ensures fresh(varied)
    ensures varied[..] == initial[..][0 := initial[0] + add0][2 := initial[2] + add2]
  {
    varied := new int[initial.Length](j reads initial requires 0 <= j < initial.Length => initial[j]);
    varied[0] := varied[0] + add0;
    varied[2] := varied[2] + add2;
  }
}
