/** The real-valued genetic algorithm nested in TrafficLightOptimizer (its Individual and Population
    classes): genes are phase durations as doubles, lower fitness is better, and the constants are
    the class's own (MUTATION_RATE 0.15, CROSSOVER_RATE 0.75, MUTATION_DEVIATION 1.5, the bounds
    10 and 45 of mutate and the 0.5 of crossover).

    The shared Random is replaced by explicit draws and the simulation that evaluateFitness runs is
    an abstract evaluator; a failed evaluation (ExceptionInvalidTimeDelay) scores Double.MAX_VALUE. */
module Optimizer {
  import opened Common
  import Evolution

  const MutationRate: real := 0.15
  const CrossoverRate: real := 0.75
  const MutationDeviation: real := 1.5
  /** The bounds Math.max(10, Math.min(x, 45)) of mutate. */
  const MinPhase: real := 10.0
  const MaxPhase: real := 45.0
  /** Width of the initial variation (RANDOM.nextDouble() - 0.5) * 15. */
  const InitialSpread: real := 15.0
  /** The draw below which crossover takes parent2's gene. */
  const CrossoverAlpha: real := 0.5

  /** The metric of the simulated intersection for a gene vector, or None when the simulation
      throws ExceptionInvalidTimeDelay. */
  type Evaluator = seq<real> -> Option<real>

  /** evaluateFitness: the evaluator's value, or Double.MAX_VALUE when the evaluation fails. */
  function FitnessOf(evaluate: Evaluator, genes: seq<real>): (f: real)
    ensures evaluate(genes).None? ==> f == DoubleMaxValue
    ensures evaluate(genes).Some? ==> f == evaluate(genes).value
  {
    match evaluate(genes)
    case None => DoubleMaxValue
    case Some(v) => v
  }

  /** A failed evaluation is the worst fitness: no gene vector whose metric is at most
      Double.MAX_VALUE scores higher. */
  lemma FailureIsWorst(evaluate: Evaluator, failed: seq<real>, other: seq<real>)
    requires evaluate(failed).None?
    requires evaluate(other).Some? ==> evaluate(other).value <= DoubleMaxValue
    ensures FitnessOf(evaluate, other) <= FitnessOf(evaluate, failed)
  {
  }

  /** One gene under mutate: when its draw passes the gate it moves by (u - 0.5) * 2 * 1.5 and is
      clamped into [10, 45]. */
  function MutatedGene(x: real, gate: real, u: real): real
  {
    if gate < MutationRate then ClampReal(x + (u - 0.5) * 2.0 * MutationDeviation, MinPhase, MaxPhase) else x
  }

  /** The genes after mutate. gates[k] is the draw for gene 2k and us[k] the draw that sets its
      step when it passes. Only even genes change; a gene whose draw is at least MUTATION_RATE keeps
      its value; a changed gene lands in [10, 45] and, when it started there and its draw is in
      [0, 1), moves by at most MUTATION_DEVIATION. */
  function MutatedGenes(g: seq<real>, gates: seq<real>, us: seq<real>): (r: seq<real>)
    requires Evolution.EvenCount(|g|) <= |gates| && Evolution.EvenCount(|g|) <= |us|
    ensures |r| == |g|
    ensures forall i | 0 <= i < |g| && i % 2 == 1 :: r[i] == g[i]
    ensures forall i | 0 <= i < |g| && i % 2 == 0 && MutationRate <= gates[i / 2] :: r[i] == g[i]
    ensures forall i | 0 <= i < |g| && i % 2 == 0 && gates[i / 2] < MutationRate :: MinPhase <= r[i] <= MaxPhase
    ensures forall i | 0 <= i < |g| && MinPhase <= g[i] <= MaxPhase && 0.0 <= us[i / 2] < 1.0 ::
      g[i] - MutationDeviation <= r[i] <= g[i] + MutationDeviation
  {
    seq(|g|, i requires 0 <= i < |g| => if i % 2 == 0 then MutatedGene(g[i], gates[i / 2], us[i / 2]) else g[i])
  }

  /** A chromosome: its phase times and the fitness last computed for them. */
  class Individual {
    const phaseTimes: array<real>
    var fitness: real
    const evaluate: Evaluator

    /** fitness is that of the current genes. */
    ghost predicate Valid()
      reads this, phaseTimes
    {
      fitness == FitnessOf(evaluate, phaseTimes[..])
    }

    /** Individual(double[]): stores Arrays.copyOf of the given array, then evaluates it. */
    constructor (genes: array<real>, evaluate: Evaluator)
      ensures fresh(phaseTimes) && phaseTimes[..] == genes[..]
      ensures this.evaluate == evaluate && Valid()
    {
      phaseTimes := new real[genes.Length](i reads genes requires 0 <= i < genes.Length => genes[i]);
      this.evaluate := evaluate;
      new;
      fitness := FitnessOf(evaluate, phaseTimes[..]);
    }

    /** mutate: walks the even genes in place, then evaluates once. */
    method Mutate(gates: seq<real>, us: seq<real>)
      requires Evolution.EvenCount(phaseTimes.Length) <= |gates| && Evolution.EvenCount(phaseTimes.Length) <= |us|
      modifies this, phaseTimes
      ensures phaseTimes[..] == MutatedGenes(old(phaseTimes[..]), gates, us)
      ensures Valid()
    {
      ghost var before := phaseTimes[..];
      var i := 0;
      while i < phaseTimes.Length
        invariant 0 <= i <= phaseTimes.Length + 1 && i % 2 == 0
        invariant forall k | 0 <= k < phaseTimes.Length ::
          phaseTimes[k] == if k < i then MutatedGenes(before, gates, us)[k] else before[k]
      {
        if gates[i / 2] < MutationRate {
          phaseTimes[i] := phaseTimes[i] + (us[i / 2] - 0.5) * 2.0 * MutationDeviation;
          phaseTimes[i] := ClampReal(phaseTimes[i], MinPhase, MaxPhase);
        }
        i := i + 2;
      }
      fitness := FitnessOf(evaluate, phaseTimes[..]);
    }
  }

  /** The draws that fill one slot of the next generation: the nextDouble() compared with
      CROSSOVER_RATE, the five indices of each tournament, one draw per gene for crossover, the
      index of the individual to copy, and the draws of mutate. */
  datatype SlotDraws = SlotDraws(
    reproduce: real,
    tournament1: seq<nat>, tournament2: seq<nat>, mix: seq<real>,
    donor: nat,
    gates: seq<real>, us: seq<real>)

  /** The draws fit a population of n individuals with `width` genes each. */
  predicate DrawsFit(d: SlotDraws, n: nat, width: nat)
  {
    && |d.tournament1| == Evolution.TournamentSize && |d.tournament2| == Evolution.TournamentSize
    && (forall k | 0 <= k < Evolution.TournamentSize :: d.tournament1[k] < n && d.tournament2[k] < n)
    && d.donor < n
    && width <= |d.mix|
    && Evolution.EvenCount(width) <= |d.gates| && Evolution.EvenCount(width) <= |d.us|
  }

  /** The genes of the individual that one slot of evolve makes from a population with these genes
      and fitnesses: a mutated crossover of two tournament winners, or a mutated copy of the drawn
      individual. Every gene is that of some member at the same index or lies in [10, 45]. */
  function Offspring(genes: seq<seq<real>>, fits: seq<real>, d: SlotDraws, width: nat): (r: seq<real>)
    requires |fits| == |genes| && forall j | 0 <= j < |genes| :: |genes[j]| == width
    requires DrawsFit(d, |genes|, width)
    ensures |r| == width
    ensures forall i | 0 <= i < width && i % 2 == 1 :: exists j | 0 <= j < |genes| :: r[i] == genes[j][i]
    ensures forall i | 0 <= i < width ::
      (exists j | 0 <= j < |genes| :: r[i] == genes[j][i]) || MinPhase <= r[i] <= MaxPhase
  {
    if d.reproduce < CrossoverRate then
      var w1 := Evolution.Tournament(fits, d.tournament1);
      var w2 := Evolution.Tournament(fits, d.tournament2);
      var mixed := Evolution.UniformCrossover(genes[w1], genes[w2], d.mix, CrossoverAlpha);
      var r := MutatedGenes(mixed, d.gates, d.us);
      assert forall i | 0 <= i < width :: r[i] == mixed[i] || MinPhase <= r[i] <= MaxPhase;
      r
    else
      MutatedGenes(genes[d.donor], d.gates, d.us)
  }

  /** Non-decreasing fitness: the order Arrays.sort leaves with comparingDouble(fitness). */
  ghost predicate SortedByFitness(s: seq<Individual>)
    reads set k | 0 <= k < |s| :: s[k]
  {
    forall i, j | 0 <= i < j < |s| :: s[i].fitness <= s[j].fitness
  }

  /** r is a ranking of s: a permutation of it in non-decreasing fitness. */
  ghost predicate IsRanking(r: seq<Individual>, s: seq<Individual>)
    reads set k | 0 <= k < |r| :: r[k]
  {
    multiset(r) == multiset(s) && SortedByFitness(r)
  }

  function Fitnesses(s: seq<Individual>): (r: seq<real>)
    reads set k | 0 <= k < |s| :: s[k]
    ensures |r| == |s| && forall k | 0 <= k < |s| :: r[k] == s[k].fitness
  {
    seq(|s|, k requires 0 <= k < |s| reads s => s[k].fitness)
  }

  ghost function GenesOf(s: seq<Individual>): (r: seq<seq<real>>)
    reads set k | 0 <= k < |s| :: s[k].phaseTimes
    ensures |r| == |s| && forall k | 0 <= k < |s| :: r[k] == s[k].phaseTimes[..]
  {
    seq(|s|, k requires 0 <= k < |s| reads set j | 0 <= j < |s| :: s[j].phaseTimes => s[k].phaseTimes[..])
  }

  /** The population of one generation. */
  class Population {
    var individuals: array<Individual>
    const evaluate: Evaluator
    /** The common number of genes of every individual. */
    ghost const geneCount: nat

    ghost function Members(): set<object>
      reads this, individuals
    {
      (set k | 0 <= k < individuals.Length :: individuals[k])
      + (set k | 0 <= k < individuals.Length :: individuals[k].phaseTimes)
    }

    /** x is evaluated with the shared evaluator, has geneCount genes, and carries the fitness of
        its genes. */
    ghost predicate Member(x: Individual)
      reads x, x.phaseTimes
    {
      x.Valid() && x.evaluate == evaluate && x.phaseTimes.Length == geneCount
    }

    /** Every individual is a member in the sense of Member. */
    ghost predicate Valid()
      reads this, individuals, Members()
    {
      forall k | 0 <= k < individuals.Length :: Member(individuals[k])
    }

    /** Population(size, initialPhaseTimes): size individuals, each a copy of the initial phase
        times whose genes 0 and 2 move by (u - 0.5) * 15 for their draws u (shifts0[k] and
        shifts2[k] for individual k), with no clamping; the other genes are copied. */
    constructor (size: nat, initialPhaseTimes: array<real>, shifts0: seq<real>, shifts2: seq<real>, evaluate: Evaluator)
      requires 3 <= initialPhaseTimes.Length
      requires |shifts0| == size && |shifts2| == size
      ensures Valid() && this.evaluate == evaluate
      ensures geneCount == initialPhaseTimes.Length
      ensures individuals.Length == size
      ensures forall k | 0 <= k < size ::
        individuals[k].phaseTimes[..] == initialPhaseTimes[..]
          [0 := initialPhaseTimes[0] + (shifts0[k] - 0.5) * InitialSpread]
          [2 := initialPhaseTimes[2] + (shifts2[k] - 0.5) * InitialSpread]
    {
      this.evaluate := evaluate;
      geneCount := initialPhaseTimes.Length;
      individuals := new Individual[0];
      new;
      var made := VariedIndividuals(size, initialPhaseTimes, shifts0, shifts2, evaluate);
      individuals := new Individual[size](k requires 0 <= k < size => made[k]);
    }

    /** Arrays.sort(individuals, comparingDouble(fitness)), as a stable insertion sort: the array
        ends up a permutation of itself in non-decreasing fitness order. */
    method SortByFitness()
      requires Valid()
      modifies individuals
      ensures multiset(individuals[..]) == old(multiset(individuals[..]))
      ensures SortedByFitness(individuals[..])
      ensures Valid()
    {
      ghost var before := individuals[..];
      var i := 0;
      while i < individuals.Length
        invariant 0 <= i <= individuals.Length
        invariant forall p, q | 0 <= p < q < i :: individuals[p].fitness <= individuals[q].fitness
        invariant multiset(individuals[..]) == old(multiset(individuals[..]))
      {
        InsertByFitness(individuals, i);
        i := i + 1;
      }
      forall k | 0 <= k < individuals.Length
        ensures Member(individuals[k])
      {
        assert individuals[k] in multiset(before);
        var j :| 0 <= j < |before| && before[j] == individuals[k];
        assert old(Member(before[j]));
      }
    }

    /** tournamentSelection: the individual the five index draws settle on, the first draw
        replaced by every later one of strictly lower fitness. */
    method TournamentSelection(picks: seq<nat>) returns (best: Individual)
      requires |picks| == Evolution.TournamentSize && forall k | 0 <= k < Evolution.TournamentSize :: picks[k] < individuals.Length
      ensures best == individuals[Evolution.Tournament(Fitnesses(individuals[..]), picks)]
    {
      ghost var fits := Fitnesses(individuals[..]);
      best := individuals[picks[0]];
      ghost var w := picks[0];
      assert picks[..1] == [picks[0]];
      var i := 1;
      while i < Evolution.TournamentSize
        invariant 1 <= i <= Evolution.TournamentSize
        invariant w == Evolution.Tournament(fits, picks[..i]) && best == individuals[w]
      {
        var candidate := individuals[picks[i]];
        assert picks[..i + 1][..i] == picks[..i];
        if candidate.fitness < best.fitness {
          best := candidate;
          w := picks[i];
        }
        i := i + 1;
      }
      assert picks[..Evolution.TournamentSize] == picks;
    }

    /** crossover: a fresh copy of parent1 in which every gene whose draw is below 0.5 is
        overwritten with parent2's. */
    method Crossover(parent1: array<real>, parent2: array<real>, mix: seq<real>) returns (child: array<real>)
      requires parent1.Length <= parent2.Length && parent1.Length <= |mix|
      ensures fresh(child)
      ensures child[..] == Evolution.UniformCrossover(parent1[..], parent2[..], mix, CrossoverAlpha)
    {
      child := new real[parent1.Length](j reads parent1 requires 0 <= j < parent1.Length => parent1[j]);
      var i := 0;
      while i < child.Length
        invariant 0 <= i <= child.Length
        invariant forall k | 0 <= k < child.Length ::
          child[k] == if k < i then Evolution.UniformCrossover(parent1[..], parent2[..], mix, CrossoverAlpha)[k] else parent1[k]
      {
        if mix[i] < CrossoverAlpha {
          child[i] := parent2[i];
        }
        i := i + 1;
      }
    }

    /** The crossover branch of evolve: two tournaments, crossover of the winners' genes, a new
        individual from them, then mutate. */
    method CreateChild(d: SlotDraws) returns (child: Individual)
      requires Valid() && DrawsFit(d, individuals.Length, geneCount)
      ensures fresh(child) && fresh(child.phaseTimes)
      ensures Made(child, MutatedGenes(
        Evolution.UniformCrossover(old(GenesOf(individuals[..]))[Evolution.Tournament(old(Fitnesses(individuals[..])), d.tournament1)],
                                   old(GenesOf(individuals[..]))[Evolution.Tournament(old(Fitnesses(individuals[..])), d.tournament2)],
                                   d.mix, CrossoverAlpha),
        d.gates, d.us))
    {
      ghost var genes, fits := GenesOf(individuals[..]), Fitnesses(individuals[..]);
      var parent1 := TournamentSelection(d.tournament1);
      var parent2 := TournamentSelection(d.tournament2);
      ghost var w1, w2 := Evolution.Tournament(fits, d.tournament1), Evolution.Tournament(fits, d.tournament2);
      assert parent1.phaseTimes[..] == genes[w1] && parent1.phaseTimes.Length == geneCount;
      assert parent2.phaseTimes[..] == genes[w2] && parent2.phaseTimes.Length == geneCount;
      var childPhaseTimes := Crossover(parent1.phaseTimes, parent2.phaseTimes, d.mix);
      ghost var mixed := Evolution.UniformCrossover(genes[w1], genes[w2], d.mix, CrossoverAlpha);
      assert childPhaseTimes[..] == mixed;
      child := new Individual(childPhaseTimes, evaluate);
      child.Mutate(d.gates, d.us);
    }

    /** The other branch of evolve: a new individual from the genes of the drawn one, then
        mutate. */
    method CreateMutatedIndividual(d: SlotDraws) returns (mutant: Individual)
      requires Valid() && DrawsFit(d, individuals.Length, geneCount)
      ensures fresh(mutant) && fresh(mutant.phaseTimes)
      ensures Made(mutant, MutatedGenes(old(GenesOf(individuals[..]))[d.donor], d.gates, d.us))
    {
      mutant := new Individual(individuals[d.donor].phaseTimes, evaluate);
      mutant.Mutate(d.gates, d.us);
    }

    /** evolve: sorts the population by fitness, keeps the first len/5 individuals as they are,
        and fills every other slot k with a fresh individual made from draws[k]. The new
        generation has the old size; its first len/5 individuals are the first len/5 of `ranked`,
        a ranking of the old population; no old individual changes. */
    method Evolve(draws: seq<SlotDraws>) returns (ghost ranked: seq<Individual>)
      requires Valid()
      requires |draws| == individuals.Length
      requires forall k | 0 <= k < |draws| :: DrawsFit(draws[k], individuals.Length, geneCount)
      modifies this, individuals
      ensures Valid()
      ensures individuals.Length == old(individuals.Length) == |ranked|
      ensures forall x | x in old(individuals[..]) :: x.fitness == old(x.fitness) && x.phaseTimes[..] == old(x.phaseTimes[..])
      ensures IsRanking(ranked, old(individuals[..]))
      ensures forall j | 0 <= j < |ranked| :: ranked[j].phaseTimes.Length == geneCount
      ensures individuals[..Evolution.EliteCount(|ranked|)] == ranked[..Evolution.EliteCount(|ranked|)]
      ensures forall k | Evolution.EliteCount(|ranked|) <= k < |ranked| ::
        && fresh(individuals[k])
        && individuals[k].phaseTimes[..] == Offspring(GenesOf(ranked), Fitnesses(ranked), draws[k], geneCount)
    {
      SortByFitness();
      ranked := individuals[..];
      ghost var genes, fits := GenesOf(ranked), Fitnesses(ranked);
      Replace(draws);
      assert GenesOf(ranked) == genes && Fitnesses(ranked) == fits;
    }

    /** The part of evolve after the sort: the bred generation replaces the array. */
    method Replace(draws: seq<SlotDraws>)
      requires Valid()
      requires |draws| == individuals.Length
      requires forall k | 0 <= k < |draws| :: DrawsFit(draws[k], individuals.Length, geneCount)
      modifies this
      ensures Valid()
      ensures individuals.Length == old(individuals.Length)
      ensures individuals[..Evolution.EliteCount(individuals.Length)] == old(individuals[..Evolution.EliteCount(individuals.Length)])
      ensures forall k | Evolution.EliteCount(individuals.Length) <= k < individuals.Length ::
        && fresh(individuals[k])
        && individuals[k].phaseTimes[..] == Offspring(old(GenesOf(individuals[..])), old(Fitnesses(individuals[..])), draws[k], geneCount)
    {
      var newGeneration := Breed(draws);
      Install(newGeneration);
      assert forall k | 0 <= k < individuals.Length :: Member(individuals[k]);
    }

    /** individuals = newGeneration: a fresh array holding the given individuals. */
    method Install(next: seq<Individual>)
      modifies this
      ensures fresh(individuals) && individuals[..] == next
    {
      individuals := new Individual[|next|](k requires 0 <= k < |next| => next[k]);
    }

    /** The loop of evolve over the sorted population: the first len/5 individuals as they are,
        then for every later slot k a fresh individual made from draws[k]. Nothing that exists
        before is changed. */
    method Breed(draws: seq<SlotDraws>) returns (next: seq<Individual>)
      requires Valid()
      requires |draws| == individuals.Length
      requires forall k | 0 <= k < |draws| :: DrawsFit(draws[k], individuals.Length, geneCount)
      ensures |next| == individuals.Length
      ensures next[..Evolution.EliteCount(individuals.Length)] == individuals[..Evolution.EliteCount(individuals.Length)]
      ensures forall k | 0 <= k < |next| :: Member(next[k])
      ensures forall k | Evolution.EliteCount(individuals.Length) <= k < |next| ::
        fresh(next[k]) && Made(next[k], Offspring(old(GenesOf(individuals[..])), old(Fitnesses(individuals[..])), draws[k], geneCount))
    {
      ghost var genes, fits := GenesOf(individuals[..]), Fitnesses(individuals[..]);
      var n := individuals.Length;
      var eliteCount := Evolution.EliteCount(n);
      next := individuals[..eliteCount];
      var i := eliteCount;
      while i < n
        invariant eliteCount <= i <= n && |next| == i
        invariant GenesOf(individuals[..]) == genes && Fitnesses(individuals[..]) == fits
        invariant next[..eliteCount] == individuals[..eliteCount]
        invariant forall k | eliteCount <= k < |next| :: fresh(next[k])
        invariant forall k | eliteCount <= k < |next| :: Made(next[k], Offspring(genes, fits, draws[k], geneCount))
      {
        var child := NextOffspring(next, draws, eliteCount, genes, fits);
        next := next + [child];
        i := i + 1;
      }
      forall k | 0 <= k < eliteCount
        ensures Member(next[k])
      {
        assert next[k] == next[..eliteCount][k] == individuals[k];
      }
    }

    /** The individual for the slot after `built`, made from its draws; the individuals already
        made, from slot start on, are left as they are. */
    method NextOffspring(built: seq<Individual>, draws: seq<SlotDraws>, start: nat, ghost genes: seq<seq<real>>, ghost fits: seq<real>)
      returns (child: Individual)
      requires Valid() && genes == GenesOf(individuals[..]) && fits == Fitnesses(individuals[..])
      requires start <= |built| < |draws|
      requires forall k | start <= k < |draws| :: DrawsFit(draws[k], individuals.Length, geneCount)
      requires forall k | start <= k < |built| :: Made(built[k], Offspring(genes, fits, draws[k], geneCount))
      ensures fresh(child)
      ensures forall k | start <= k < |built| + 1 ::
        Made((built + [child])[k], Offspring(genes, fits, draws[k], geneCount))
    {
      child := CreateOffspring(draws[|built|]);
      forall k | start <= k < |built| + 1
        ensures Made((built + [child])[k], Offspring(genes, fits, draws[k], geneCount))
      {
        if k < |built| {
          assert (built + [child])[k] == built[k];
        }
      }
    }

    /** One slot of the loop of evolve: the crossover branch when the draw is below
        CROSSOVER_RATE, the copy-and-mutate branch otherwise. */
    method CreateOffspring(d: SlotDraws) returns (child: Individual)
      requires Valid() && DrawsFit(d, individuals.Length, geneCount)
      ensures fresh(child)
      ensures Made(child, Offspring(old(GenesOf(individuals[..])), old(Fitnesses(individuals[..])), d, geneCount))
    {
      if d.reproduce < CrossoverRate {
        child := CreateChild(d);
      } else {
        child := CreateMutatedIndividual(d);
      }
    }

    /** x is a member whose genes are g. */
    ghost predicate Made(x: Individual, g: seq<real>)
      reads x, x.phaseTimes
    {
      Member(x) && x.phaseTimes[..] == g
    }

    /** getBestIndividual: the first individual of least fitness, or null for an empty
        population. */
    function GetBestIndividual(): (best: Individual?)
      reads this, individuals, set k | 0 <= k < individuals.Length :: individuals[k]
      ensures best == null <==> individuals.Length == 0
      ensures best != null ==> best in individuals[..]
      ensures best != null ==> forall k | 0 <= k < individuals.Length :: best.fitness <= individuals[k].fitness
      ensures best != null ==> exists j | 0 <= j < individuals.Length ::
        best == individuals[j] && forall k | 0 <= k < j :: best.fitness < individuals[k].fitness
    {
      if individuals.Length == 0 then null
      else
        var fits := Fitnesses(individuals[..]);
        Evolution.TournamentOverAll(fits);
        individuals[Evolution.Tournament(fits, Evolution.Indices(individuals.Length))]
    }
  }

  /** One pass of insertion sort: moves a[i] left past every element of strictly larger fitness,
      so that a[..i + 1] is sorted when a[..i] was. */
  method InsertByFitness(a: array<Individual>, i: nat)
    requires i < a.Length
    requires forall p, q | 0 <= p < q < i :: a[p].fitness <= a[q].fitness
    modifies a
    ensures forall p, q | 0 <= p < q <= i :: a[p].fitness <= a[q].fitness
    ensures multiset(a[..]) == old(multiset(a[..]))
  {
    var j := i;
    while 0 < j && a[j].fitness < a[j - 1].fitness
      invariant 0 <= j <= i
      invariant forall p, q | 0 <= p < q <= i && p != j && q != j :: a[p].fitness <= a[q].fitness
      invariant 0 < j < i ==> a[j - 1].fitness <= a[j + 1].fitness
      invariant j < i ==> a[j].fitness < a[j + 1].fitness
      invariant multiset(a[..]) == old(multiset(a[..]))
    {
      SwapAdjacent(a, j);
      j := j - 1;
    }
  }

  /** Exchanges a[j - 1] and a[j]. */
  method SwapAdjacent(a: array<Individual>, j: nat)
    requires 0 < j < a.Length
    modifies a
    ensures a[..] == old(a[..])[j - 1 := old(a[j])][j := old(a[j - 1])]
    ensures multiset(a[..]) == old(multiset(a[..]))
  {
    a[j - 1], a[j] := a[j], a[j - 1];
  }

  /** The individuals of the Population constructor: for each k a fresh individual made from a
      copy of the initial phase times with genes 0 and 2 moved by (u - 0.5) * 15 for the draws
      shifts0[k] and shifts2[k]. With draws in [0, 1) the move is in [-7.5, 7.5). */
  method VariedIndividuals(size: nat, initial: array<real>, shifts0: seq<real>, shifts2: seq<real>, evaluate: Evaluator)
    returns (made: seq<Individual>)
    requires 3 <= initial.Length && |shifts0| == size && |shifts2| == size
    ensures |made| == size
    ensures forall k | 0 <= k < size ::
      && made[k].Valid() && made[k].evaluate == evaluate
      && made[k].phaseTimes[..] == initial[..]
           [0 := initial[0] + (shifts0[k] - 0.5) * InitialSpread]
           [2 := initial[2] + (shifts2[k] - 0.5) * InitialSpread]
    ensures forall k | 0 <= k < size && 0.0 <= shifts0[k] < 1.0 ::
      initial[0] - 7.5 <= made[k].phaseTimes[0] < initial[0] + 7.5
  {
    made := [];
    var i := 0;
    while i < size
      invariant 0 <= i <= size && |made| == i
      invariant forall k | 0 <= k < i ::
        && made[k].Valid() && made[k].evaluate == evaluate
        && made[k].phaseTimes[..] == initial[..]
             [0 := initial[0] + (shifts0[k] - 0.5) * InitialSpread]
             [2 := initial[2] + (shifts2[k] - 0.5) * InitialSpread]
    {
      var varied := VariedCopy(initial, (shifts0[i] - 0.5) * InitialSpread, (shifts2[i] - 0.5) * InitialSpread);
      var individual := new Individual(varied, evaluate);
      made := made + [individual];
      i := i + 1;
    }
  }

  /** The variedPhaseTimes of the Population constructor: a fresh copy with add0 added to gene 0
      and add2 to gene 2. */
  method VariedCopy(initial: array<real>, add0: real, add2: real) returns (varied: array<real>)
    requires 3 <= initial.Length
    ensures fresh(varied)
    ensures varied[..] == initial[..][0 := initial[0] + add0][2 := initial[2] + add2]
  {
    varied := new real[initial.Length](j reads initial requires 0 <= j < initial.Length => initial[j]);
    varied[0] := varied[0] + add0;
    varied[2] := varied[2] + add2;
  }
}
