# AdjustableCrossroads in Dafny

AdjustableCrossroads looks for traffic-light phase durations at one four-way intersection. It
builds a Petri net of the intersection and simulates it. A control net cycles through four phases:
green for directions 1 and 2, yellow, green for directions 3 and 4, and yellow again. There is one
directional net per approach: cars arrive, queue, and cross while their green place holds a token.
The fitness of a set of phase times is the largest mean queue over the four directions. A grid
search and several genetic algorithms (GAs) minimise that fitness. The repository also has a few
array helpers for its charts: a median, a percentile, and the layout of the 3D fitness surface.

This project models that core on either side of the simulation kernel:

- `petri.dfy`: the arena of places. Every net names its places by integer ids held in slots, and
  arcs refer to slots. It also holds the untimed firing rule of the nets: informational arcs test
  and never consume.
- `crossroads.dfy`: the net builders, `createSimulationModels`, and `connectTrafficSubsystems` as an
  in-place update of an array of nets. It also proves the invariants of the untimed token game:
  - one token circulates through the control cycle;
  - the two green places are never marked together;
  - exactly one control transition is enabled;
  - four control firings restore the marking;
  - queued plus departed cars equal arrivals;
  - with the wiring, no two conflicting directions can cross;
  - without the wiring, no car ever crosses.
- `fitness.dfy`: `getStatistics`, `goStats` (its shape) and `getIndividualMetric`. It also holds the
  nested grid search of `findOptimalPhaseTimes` as a loop proved against its specification.
- `evolution.dfy` and `draft_individual.dfy`: the integer GA, `Individual` and `Population`. Both
  are classes over arrays, and the second file models the earlier draft of `Individual`.
- `optimizer.dfy`: the real-valued GA nested in `TrafficLightOptimizer`.
- `tl_individual.dfy`, `tl_mutation.dfy`, `tl_crossover.dfy` and `tl_population.dfy`: the
  operator-based GA. Individuals are immutable values. The population is a class whose list of
  individuals `evolve` reassigns.
- `fitness_stats.dfy`: `calculateMedian` and `calculatePercentile`. Both sort the caller's array in
  place.
- `surface_data.dfy` and `results_surface.dfy`: the two `prepare_surface_data` functions.

`goStats` catches a failed replication and returns `new double[8]`, an all-zero row, for it. That
is the best possible score, as `Fitness.FailureScoresBest` states.

The simulation kernel is an oracle parameter, and so is every random draw. In the GAs, the
evaluation of a gene vector is an abstract function: it yields `None` when the evaluation throws.
Doubles are modelled as `real`.

## Model

| member | source | states |
|---|---|---|
| Crossroads.GetPetriNetManagementSubsystem | PetriObjModelPaint/src/LibTest/TERM_PAPER/POM/AdjustableCrossroads.java:255-275 | The net keeps the given places and transitions. Every arc joins one of the six control places to one of the four control transitions, and no input arc is informational. |
| Crossroads.CreateManagementSubsystem | PetriObjModelPaint/src/LibTest/TERM_PAPER/POM/AdjustableCrossroads.java:229-250 | The control net has six fresh places marked [1, 1, 0, 0, 0, 0]. Its four deterministic transitions have the delays phaseTimes[0..3] in order, and its arcs are the control arcs. |
| Crossroads.GetPetriNetDirectionalTrafficSubsystem | PetriObjModelPaint/src/LibTest/TERM_PAPER/POM/AdjustableCrossroads.java:209-224 | Arcs join four places and two transitions. An input arc is informational exactly when it comes from slot 3, the guard. |
| Crossroads.CreateDirectionalTrafficSubsystem | PetriObjModelPaint/src/LibTest/TERM_PAPER/POM/AdjustableCrossroads.java:183-203 | The net has four fresh places marked [1, 0, 0, 0], an exponential arrival transition with the direction's mean inter-arrival time, and a deterministic crossing transition. |
| Crossroads.CreateSimulationModels | PetriObjModelPaint/src/LibTest/TERM_PAPER/POM/AdjustableCrossroads.java:153-165 | There are five nets on 22 places. Index 0 is the control net. Index i + 1 is the net of direction i, built with arrivalTimes[i]. |
| Crossroads.ConnectedRewires | PetriObjModelPaint/src/LibTest/TERM_PAPER/POM/AdjustableCrossroads.java:170-178 | Slot 3 of nets 1 and 2 becomes control slot 0, and slot 3 of nets 3 and 4 becomes control slot 5. Every other slot, transition and arc is unchanged. |
| Crossroads.ConnectTrafficSubsystems | PetriObjModelPaint/src/LibTest/TERM_PAPER/POM/AdjustableCrossroads.java:170-178 | The in-place update leaves the array of nets equal to the rewiring described by ConnectedRewires. |
| Crossroads.InitialMarking | PetriObjModelPaint/src/LibTest/TERM_PAPER/POM/AdjustableCrossroads.java:153-165 | With or without the wiring, the model starts from the same 22-place marking. |
| Crossroads.InitialArenaPlaces | PetriObjModelPaint/src/LibTest/TERM_PAPER/POM/AdjustableCrossroads.java:183-237 | In that marking the control places are in the first green phase, every source holds its token, and every queue, departed and guard place is empty. |
| Crossroads.ControlNetShape | PetriObjModelPaint/src/LibTest/TERM_PAPER/POM/AdjustableCrossroads.java:229-275 | Net 0 is the control net on places 0..5. Its slots are distinct and it is well formed over the arena. |
| Crossroads.DirectionNetShape | PetriObjModelPaint/src/LibTest/TERM_PAPER/POM/AdjustableCrossroads.java:183-224 | Net d + 1 is the directional net on the places of direction d. After wiring, its slot 3 is the green place serving d. Its slots are distinct. |
| Crossroads.ModelValid | PetriObjModelPaint/src/LibTest/TERM_PAPER/POM/AdjustableCrossroads.java:153-178 | Every net of the model, wired or not, refers only to existing places, slots and transitions. |
| Crossroads.ControlEnabling | PetriObjModelPaint/src/LibTest/TERM_PAPER/POM/AdjustableCrossroads.java:256-263 | Each of the four control transitions is enabled exactly when its input places hold tokens. No other transition is enabled. |
| Crossroads.ControlEnablesOne | PetriObjModelPaint/src/LibTest/TERM_PAPER/POM/AdjustableCrossroads.java:256-272 | In each phase, exactly the phase's own control transition is enabled. |
| Crossroads.ControlFire | PetriObjModelPaint/src/LibTest/TERM_PAPER/POM/AdjustableCrossroads.java:256-272 | Firing a control transition changes each control place by what its output arcs put there minus what its input arcs take. |
| Crossroads.ControlFiresNext | PetriObjModelPaint/src/LibTest/TERM_PAPER/POM/AdjustableCrossroads.java:256-272 | Firing the phase's transition moves the control places to the next phase. Every place outside the control net is unchanged. |
| Crossroads.DirectionalEnabling | PetriObjModelPaint/src/LibTest/TERM_PAPER/POM/AdjustableCrossroads.java:210-215 | Arrival needs the source token. Crossing needs a queued car and a token in the guard slot. |
| Crossroads.Arrive | PetriObjModelPaint/src/LibTest/TERM_PAPER/POM/AdjustableCrossroads.java:210-221 | Arrival gives the source its token back and adds one car to the queue. Nothing else changes. |
| Crossroads.Cross | PetriObjModelPaint/src/LibTest/TERM_PAPER/POM/AdjustableCrossroads.java:210-221 | Crossing moves one car from the queue to the departed place. The informational arc leaves the guard's tokens in place. |
| Crossroads.InitialInv | PetriObjModelPaint/src/LibTest/TERM_PAPER/POM/AdjustableCrossroads.java:153-178 | The initial marking satisfies the invariant of the token game. |
| Crossroads.ControlPlaceInvariants | PetriObjModelPaint/src/LibTest/TERM_PAPER/POM/AdjustableCrossroads.java:256-272 | Under the invariant, P1 + P2 + P3 + P4 = 1 and P0 + P5 = 1. The two green places are never marked together. |
| Crossroads.ModelShape | PetriObjModelPaint/src/LibTest/TERM_PAPER/POM/AdjustableCrossroads.java:153-178 | The built model, wired or not, has the shape the token-game lemmas rely on. |
| Crossroads.ControlStep | PetriObjModelPaint/src/LibTest/TERM_PAPER/POM/AdjustableCrossroads.java:256-272 | In the whole model, a control step is possible only for the phase's transition. It keeps the invariant, advances the phase and leaves every directional place unchanged. |
| Crossroads.DirectionEnabled | PetriObjModelPaint/src/LibTest/TERM_PAPER/POM/AdjustableCrossroads.java:210-215 | In the whole model, arrival is always enabled. Crossing needs a queued car and a token in the guard place, which after wiring is the green place serving the direction. |
| Crossroads.DirectionArrival | PetriObjModelPaint/src/LibTest/TERM_PAPER/POM/AdjustableCrossroads.java:210-221 | An arrival in direction d adds one car to d's queue and changes nothing else in the arena. |
| Crossroads.DirectionCrossing | PetriObjModelPaint/src/LibTest/TERM_PAPER/POM/AdjustableCrossroads.java:210-221 | A crossing in direction d moves one car from d's queue to d's departed place and changes nothing else in the arena. |
| Crossroads.StepInv | PetriObjModelPaint/src/LibTest/TERM_PAPER/POM/AdjustableCrossroads.java:209-275 | Every enabled step keeps the invariant. Arrivals add to queued plus departed, departures never decrease, and without the wiring nothing departs. |
| Crossroads.RunInv | PetriObjModelPaint/src/LibTest/TERM_PAPER/POM/AdjustableCrossroads.java:209-275 | Every run keeps the invariant. In each direction, queued plus departed grows by exactly that direction's arrivals. Departures never decrease, and without the wiring they stay unchanged. |
| Crossroads.CrossingNeedsGreen | PetriObjModelPaint/src/LibTest/TERM_PAPER/POM/AdjustableCrossroads.java:170-178 | With the wiring, direction d can cross if and only if a car is queued and the green place serving d is marked. |
| Crossroads.NoConflictingCrossings | PetriObjModelPaint/src/LibTest/TERM_PAPER/POM/AdjustableCrossroads.java:170-178 | With the wiring, directions 1 or 2 never cross at the same time as directions 3 or 4. |
| Crossroads.UnwiredNoCrossing | PetriObjModelPaint/src/LibTest/TERM_PAPER/EVOLUTIONARY_SELECTION/TrafficLightIndividual.java:51 | Without the wiring, the guard places never get a token, so no crossing is ever enabled. |
| Crossroads.ControlCycle | PetriObjModelPaint/src/LibTest/TERM_PAPER/POM/AdjustableCrossroads.java:256-272 | From the first phase the control net fires T1, T2, T3, T0 and returns to exactly the marking it started from. |
| Crossroads.ControlRun | PetriObjModelPaint/src/LibTest/TERM_PAPER/POM/AdjustableCrossroads.java:256-272 | The control net can always fire through k phases. It ends k phases on, keeps the invariant, and leaves the directional places unchanged. |
| Crossroads.ExactlyOneControlTransition | PetriObjModelPaint/src/LibTest/TERM_PAPER/POM/AdjustableCrossroads.java:256-272 | In every marking that satisfies the invariant, exactly one control transition is enabled: the one for the current phase. |
| Crossroads.WiredRun | PetriObjModelPaint/src/LibTest/TERM_PAPER/POM/AdjustableCrossroads.java:81-82 | Every marking reachable in the wired model satisfies the invariant, and the greens are never marked together. Exactly one control transition is enabled. Queued plus departed equals arrivals, and conflicting directions never cross together. |
| Crossroads.UnwiredRun | PetriObjModelPaint/src/LibTest/TERM_PAPER/EVOLUTIONARY_SELECTION/TrafficLightIndividual.java:51 | In the model the evaluator of the operator-based GA builds without wiring, no car ever crosses and every arrival stays queued. |
| Fitness.GetStatistics | PetriObjModelPaint/src/LibTest/TERM_PAPER/POM/AdjustableCrossroads.java:137-148 | The row has eight values: the means of place 1 of nets 1..4, then the final marks of place 2 of nets 1..4. |
| Fitness.StatisticsPlaces | PetriObjModelPaint/src/LibTest/TERM_PAPER/POM/AdjustableCrossroads.java:139-146 | The places read are direction d's queue (place 1) and departed place (place 2). |
| Fitness.Replication | PetriObjModelPaint/src/LibTest/TERM_PAPER/POM/AdjustableCrossroads.java:79-91 | One replication always yields a row of eight values. |
| Fitness.GoStats | PetriObjModelPaint/src/LibTest/TERM_PAPER/POM/AdjustableCrossroads.java:77-93 | There is one row per iteration, and none for a negative count. Row i is the statistics of the wired model's run i, or the zero row when that run throws. |
| Fitness.GetIndividualMetric | PetriObjModelPaint/src/LibTest/TERM_PAPER/POM/AdjustableCrossroads.java:99-108 | The metric is at least every mean of columns 0..3 and equal to one of them. It is 0 when there are no rows. |
| Fitness.MetricIgnoresDepartures | PetriObjModelPaint/src/LibTest/TERM_PAPER/POM/AdjustableCrossroads.java:99-108 | Rows that agree on columns 0..3 get the same metric, so columns 4..7 never matter. |
| Fitness.ZeroRowsScoreZero | PetriObjModelPaint/src/LibTest/TERM_PAPER/POM/AdjustableCrossroads.java:99-108 | Rows that are all zero rows score 0. |
| Fitness.MetricNonNegative | PetriObjModelPaint/src/LibTest/TERM_PAPER/POM/AdjustableCrossroads.java:99-108 | When the queue means are non-negative, the metric is never below 0. |
| Fitness.FailureScoresBest | PetriObjModelPaint/src/LibTest/TERM_PAPER/POM/AdjustableCrossroads.java:87-90 | When every replication throws, the metric is 0, which no run with non-negative queue means beats. |
| Fitness.GridMinimum | PetriObjModelPaint/src/LibTest/TERM_PAPER/POM/AdjustableCrossroads.java:52-71 | The result is at most the metric of every (phase1, phase3) in the square and equal to one of them. It is Double.MAX_VALUE when the range is empty. |
| Fitness.FindOptimalPhaseTimes | PetriObjModelPaint/src/LibTest/TERM_PAPER/POM/AdjustableCrossroads.java:51-72 | The result is the least metric of the genes [phase1, 10, phase3, 10] over the square, or Double.MAX_VALUE when the range is empty. |
| Evolution.FitnessOf | PetriObjModelPaint/src/LibTest/TERM_PAPER/EVOLUTIONARY_SELECTION/Individual.java:34-41 | Fitness is the evaluator's value, or the penalty when the evaluation throws. |
| Evolution.MutatedGenes | PetriObjModelPaint/src/LibTest/TERM_PAPER/EVOLUTIONARY_SELECTION/Individual.java:48-58 | The length is unchanged and odd genes are unchanged. An even gene whose draw is at least MUTATION_RATE is unchanged. A mutated gene lies in [MIN_PHASE_TIME, MAX_PHASE_TIME]. A gene that started in bounds moves by at most MUTATION_DEV. |
| Evolution.Individual.constructor | PetriObjModelPaint/src/LibTest/TERM_PAPER/EVOLUTIONARY_SELECTION/Individual.java:23-26 | The individual holds a fresh copy of the caller's genes, and its fitness is that of those genes. |
| Evolution.Individual.Mutate | PetriObjModelPaint/src/LibTest/TERM_PAPER/EVOLUTIONARY_SELECTION/Individual.java:47-60 | The genes become MutatedGenes of the old genes, and the fitness is then that of the new genes. |
| Evolution.Tournament | PetriObjModelPaint/src/LibTest/TERM_PAPER/EVOLUTIONARY_SELECTION/Population.java:87-97 | The winner is one of the drawn indices, its fitness is at most every drawn fitness, and no earlier draw has a lower fitness. |
| Evolution.TournamentOverAll | PetriObjModelPaint/src/LibTest/TERM_PAPER/EVOLUTIONARY_SELECTION/Population.java:121-125 | A tournament over every index in order settles on the first index of least fitness. |
| Evolution.UniformCrossover | PetriObjModelPaint/src/LibTest/TERM_PAPER/EVOLUTIONARY_SELECTION/Population.java:106-114 | The child has parent1's length and each gene is parent1's or parent2's, chosen by the draw against ALPHA. All draws at or above ALPHA give parent1; all below give parent2's prefix. |
| Evolution.Offspring | PetriObjModelPaint/src/LibTest/TERM_PAPER/EVOLUTIONARY_SELECTION/Population.java:45-47 | A new slot's genes have the population's width. Every odd gene comes from some member, and every gene comes from some member or lies in bounds. |
| Evolution.Population.constructor | PetriObjModelPaint/src/LibTest/TERM_PAPER/EVOLUTIONARY_SELECTION/Population.java:22-30 | There are exactly size individuals. Genes 0 and 2 are the initial values plus their draws plus MIN_PHASE_TIME, not clamped; the other genes are copied. For a draw nextInt can return, in [0, MAX - MIN], the gene ends up between its initial value plus MIN and its initial value plus MAX. |
| Evolution.Population.SortByFitness | PetriObjModelPaint/src/LibTest/TERM_PAPER/EVOLUTIONARY_SELECTION/Population.java:36 | The array becomes a permutation of itself in non-decreasing fitness. |
| Evolution.InsertByFitness | PetriObjModelPaint/src/LibTest/TERM_PAPER/EVOLUTIONARY_SELECTION/Population.java:36 | One insertion pass extends the sorted prefix and keeps the array a permutation. |
| Evolution.Population.TournamentSelection | PetriObjModelPaint/src/LibTest/TERM_PAPER/EVOLUTIONARY_SELECTION/Population.java:87-97 | The result is the individual at the index Tournament settles on for the five draws. |
| Evolution.Population.Crossover | PetriObjModelPaint/src/LibTest/TERM_PAPER/EVOLUTIONARY_SELECTION/Population.java:106-114 | The result is a fresh array equal to UniformCrossover of the parents, and the parents are untouched. |
| Evolution.Population.CreateChild | PetriObjModelPaint/src/LibTest/TERM_PAPER/EVOLUTIONARY_SELECTION/Population.java:57-67 | The result is a fresh individual whose genes are the mutated crossover of the two tournament winners' genes. |
| Evolution.Population.CreateMutatedIndividual | PetriObjModelPaint/src/LibTest/TERM_PAPER/EVOLUTIONARY_SELECTION/Population.java:74-80 | The result is a fresh individual whose genes are the mutated copy of the drawn member's genes. |
| Evolution.Population.CreateOffspring | PetriObjModelPaint/src/LibTest/TERM_PAPER/EVOLUTIONARY_SELECTION/Population.java:46 | A slot is filled by crossover or by mutation, as the draw against CROSSOVER_RATE picks. |
| Evolution.Population.NextOffspring | PetriObjModelPaint/src/LibTest/TERM_PAPER/EVOLUTIONARY_SELECTION/Population.java:45-47 | The next slot gets a fresh individual with the offspring genes of its draws. Every slot filled earlier still holds the offspring of its own draws. |
| Evolution.Population.Breed | PetriObjModelPaint/src/LibTest/TERM_PAPER/EVOLUTIONARY_SELECTION/Population.java:38-47 | The new generation has the old size. Its first len/5 slots are the same objects. Every other slot is a fresh member with the offspring genes of its draws. |
| Evolution.Population.Install | PetriObjModelPaint/src/LibTest/TERM_PAPER/EVOLUTIONARY_SELECTION/Population.java:49 | The field is a fresh array holding the new generation. |
| Evolution.Population.Replace | PetriObjModelPaint/src/LibTest/TERM_PAPER/EVOLUTIONARY_SELECTION/Population.java:38-49 | Every individual is still a member, and the size is unchanged. The first len/5 slots keep their objects, and every other slot k holds a fresh individual with the offspring genes of draws[k] over the population before the call. |
| Evolution.Population.Evolve | PetriObjModelPaint/src/LibTest/TERM_PAPER/EVOLUTIONARY_SELECTION/Population.java:35-50 | The size is preserved, and no old individual's genes or fitness change. The first len/5 slots are the len/5 best of a ranking of the old population; the rest are fresh offspring. |
| Evolution.Population.GetBestIndividual | PetriObjModelPaint/src/LibTest/TERM_PAPER/EVOLUTIONARY_SELECTION/Population.java:121-125 | The result is null exactly for an empty population. Otherwise it is the first member of least fitness. |
| Evolution.VariedIndividuals | PetriObjModelPaint/src/LibTest/TERM_PAPER/EVOLUTIONARY_SELECTION/Population.java:24-29 | The constructor's loop makes size individuals from varied copies of the initial genes. A draw in [0, MAX - MIN] moves gene 0 or 2 by an amount in [MIN, MAX]. |
| Evolution.VariedCopy | PetriObjModelPaint/src/LibTest/TERM_PAPER/EVOLUTIONARY_SELECTION/Population.java:25-27 | The copy is fresh and equals the initial genes with genes 0 and 2 shifted. |
| DraftSelection.Individual.constructor | EVOLUTIONARY_SELECTION/Individual.java:25-28 | The individual holds a fresh copy of the caller's genes, and its fitness is the metric of those genes. There is no failure branch. |
| DraftSelection.Individual.Mutate | EVOLUTIONARY_SELECTION/Individual.java:44-57 | The genes become the same MutatedGenes as in the later version, and the fitness is then the metric of the new genes. |
| Optimizer.FitnessOf | PetriObjModelPaint/src/LibTest/TERM_PAPER/EVOLUTIONARY_SELECTION/TrafficLightOptimizer.java:119-137 | Fitness is the evaluator's value, or Double.MAX_VALUE when the evaluation throws. |
| Optimizer.FailureIsWorst | PetriObjModelPaint/src/LibTest/TERM_PAPER/EVOLUTIONARY_SELECTION/TrafficLightOptimizer.java:133-136 | A failed evaluation scores at least as high, that is as badly, as any other. |
| Optimizer.MutatedGenes | PetriObjModelPaint/src/LibTest/TERM_PAPER/EVOLUTIONARY_SELECTION/TrafficLightOptimizer.java:143-150 | Odd genes and ungated even genes are unchanged, and gated genes land in [10, 45]. A gene that started in [10, 45] moves by at most 1.5. |
| Optimizer.Individual.constructor | PetriObjModelPaint/src/LibTest/TERM_PAPER/EVOLUTIONARY_SELECTION/TrafficLightOptimizer.java:108-111 | The individual holds a fresh copy of the genes, and its fitness is that of those genes. |
| Optimizer.Individual.Mutate | PetriObjModelPaint/src/LibTest/TERM_PAPER/EVOLUTIONARY_SELECTION/TrafficLightOptimizer.java:143-152 | The genes become MutatedGenes of the old genes, evaluated once afterwards. |
| Optimizer.Offspring | PetriObjModelPaint/src/LibTest/TERM_PAPER/EVOLUTIONARY_SELECTION/TrafficLightOptimizer.java:192-210 | A new slot's genes have the population's width. Each gene is some member's gene at that index or lies in [10, 45]. |
| Optimizer.Population.constructor | PetriObjModelPaint/src/LibTest/TERM_PAPER/EVOLUTIONARY_SELECTION/TrafficLightOptimizer.java:167-176 | There are size individuals. Genes 0 and 2 are shifted by (u - 0.5) * 15 with no clamping, and the other genes are copied. |
| Optimizer.VariedIndividuals | PetriObjModelPaint/src/LibTest/TERM_PAPER/EVOLUTIONARY_SELECTION/TrafficLightOptimizer.java:169-175 | The constructor's loop gives each individual varied genes. With draws in [0, 1), gene 0 moves within [-7.5, 7.5). |
| Optimizer.VariedCopy | PetriObjModelPaint/src/LibTest/TERM_PAPER/EVOLUTIONARY_SELECTION/TrafficLightOptimizer.java:171-173 | The copy is fresh and equals the initial genes with genes 0 and 2 shifted. |
| Optimizer.Population.SortByFitness | PetriObjModelPaint/src/LibTest/TERM_PAPER/EVOLUTIONARY_SELECTION/TrafficLightOptimizer.java:183 | The array becomes a permutation of itself in non-decreasing fitness. |
| Optimizer.InsertByFitness | PetriObjModelPaint/src/LibTest/TERM_PAPER/EVOLUTIONARY_SELECTION/TrafficLightOptimizer.java:183 | One insertion pass extends the sorted prefix and keeps the array a permutation. |
| Optimizer.Population.TournamentSelection | PetriObjModelPaint/src/LibTest/TERM_PAPER/EVOLUTIONARY_SELECTION/TrafficLightOptimizer.java:221-231 | The result is the individual at the index Tournament settles on for the five draws. |
| Optimizer.Population.Crossover | PetriObjModelPaint/src/LibTest/TERM_PAPER/EVOLUTIONARY_SELECTION/TrafficLightOptimizer.java:240-248 | The result is a fresh array equal to the uniform crossover of the parents with alpha 0.5. |
| Optimizer.Population.CreateChild | PetriObjModelPaint/src/LibTest/TERM_PAPER/EVOLUTIONARY_SELECTION/TrafficLightOptimizer.java:193-202 | The result is a fresh individual from the mutated crossover of the two tournament winners. |
| Optimizer.Population.CreateMutatedIndividual | PetriObjModelPaint/src/LibTest/TERM_PAPER/EVOLUTIONARY_SELECTION/TrafficLightOptimizer.java:204-209 | The result is a fresh individual from the mutated copy of the drawn member's genes. |
| Optimizer.Population.CreateOffspring | PetriObjModelPaint/src/LibTest/TERM_PAPER/EVOLUTIONARY_SELECTION/TrafficLightOptimizer.java:193-210 | A slot is filled by crossover or by mutation, as the draw against CROSSOVER_RATE picks. |
| Optimizer.Population.NextOffspring | PetriObjModelPaint/src/LibTest/TERM_PAPER/EVOLUTIONARY_SELECTION/TrafficLightOptimizer.java:192-211 | The next slot gets a fresh individual with the offspring genes of its draws. Every slot filled earlier still holds the offspring of its own draws. |
| Optimizer.Population.Breed | PetriObjModelPaint/src/LibTest/TERM_PAPER/EVOLUTIONARY_SELECTION/TrafficLightOptimizer.java:185-211 | The new generation has the old size. The first len/5 slots are the same objects, and the rest are fresh members with the offspring genes of their draws. |
| Optimizer.Population.Install | PetriObjModelPaint/src/LibTest/TERM_PAPER/EVOLUTIONARY_SELECTION/TrafficLightOptimizer.java:213 | The field is a fresh array holding the new generation. |
| Optimizer.Population.Replace | PetriObjModelPaint/src/LibTest/TERM_PAPER/EVOLUTIONARY_SELECTION/TrafficLightOptimizer.java:185-213 | Every individual is still a member, and the size is unchanged. The first len/5 slots keep their objects, and every other slot k holds a fresh individual with the offspring genes of draws[k] over the population before the call. |
| Optimizer.Population.Evolve | PetriObjModelPaint/src/LibTest/TERM_PAPER/EVOLUTIONARY_SELECTION/TrafficLightOptimizer.java:181-214 | The size is preserved, and no old individual changes. The len/5 best of a ranking are kept and the rest are fresh offspring. |
| Optimizer.Population.GetBestIndividual | PetriObjModelPaint/src/LibTest/TERM_PAPER/EVOLUTIONARY_SELECTION/TrafficLightOptimizer.java:255-259 | The result is null exactly for an empty population. Otherwise it is the first member of least fitness. |
| TrafficLightIndividual.FromPhaseTimes | PetriObjModelPaint/src/LibTest/TERM_PAPER/EVOLUTIONARY_SELECTION/TrafficLightIndividual.java:39-42 | The individual holds exactly the given genes and their fitness, which is Double.MAX_VALUE when the evaluation throws. |
| TrafficLightIndividual.RandomIndividual | PetriObjModelPaint/src/LibTest/TERM_PAPER/EVOLUTIONARY_SELECTION/TrafficLightIndividual.java:25-34 | There are four evaluated genes. Genes 1 and 3 are 10.0, and genes 0 and 2 lie in [minTime, maxTime] for draws in [0, 1). |
| TrafficLightIndividual.ScaledDraw | PetriObjModelPaint/src/LibTest/TERM_PAPER/EVOLUTIONARY_SELECTION/TrafficLightIndividual.java:28 | A draw in [0, 1) scaled onto [lo, hi] stays inside it. |
| TrafficLightIndividual.CompareTo | PetriObjModelPaint/src/LibTest/TERM_PAPER/EVOLUTIONARY_SELECTION/TrafficLightIndividual.java:70-73 | The sign of the result is the order of the two fitnesses, and the result is -1, 0 or 1. |
| TrafficLightIndividual.CompareToPreorder | PetriObjModelPaint/src/LibTest/TERM_PAPER/EVOLUTIONARY_SELECTION/TrafficLightIndividual.java:70-73 | compareTo is reflexive, total, antisymmetric in sign and transitive. |
| TrafficLightIndividual.MinOf | PetriObjModelPaint/src/LibTest/TERM_PAPER/EVOLUTIONARY_SELECTION/TrafficLightPopulation.java:61 | Collections.min gives an index whose fitness is least, and no earlier element ties with it. |
| TrafficLightMutation.MutatedTime | PetriObjModelPaint/src/LibTest/TERM_PAPER/EVOLUTIONARY_SELECTION/TrafficLightMutationOperator.java:44-47 | A closed gate leaves the gene alone. An open gate puts it in [minTime, maxTime], and a gene that started there moves by at most the deviation. |
| TrafficLightMutation.Step | PetriObjModelPaint/src/LibTest/TERM_PAPER/EVOLUTIONARY_SELECTION/TrafficLightMutationOperator.java:45 | (2u - 1) * dev lies in [-dev, dev]. |
| TrafficLightMutation.MutatedTimes | PetriObjModelPaint/src/LibTest/TERM_PAPER/EVOLUTIONARY_SELECTION/TrafficLightMutationOperator.java:41-53 | The length is kept. Genes 0 and 2 follow their own draws, and every other gene is copied. |
| TrafficLightMutation.Mutate | PetriObjModelPaint/src/LibTest/TERM_PAPER/EVOLUTIONARY_SELECTION/TrafficLightMutationOperator.java:40-56 | The result is a new evaluated individual with the mutated genes. It has four genes when the input does, and equals the input when neither gate opens. |
| TrafficLightCrossover.CrossedTimes | PetriObjModelPaint/src/LibTest/TERM_PAPER/EVOLUTIONARY_SELECTION/TrafficLightCrossoverOperator.java:31-52 | A draw above the rate gives plain copies. Otherwise, at each index the children hold the parents' genes, swapped exactly at the drawn indices 0 and 2. |
| TrafficLightCrossover.ExchangeKeepsGenes | PetriObjModelPaint/src/LibTest/TERM_PAPER/EVOLUTIONARY_SELECTION/TrafficLightCrossoverOperator.java:43-46 | Swapping one index keeps the pair's genes: nothing is lost and nothing is duplicated. |
| TrafficLightCrossover.CrossoverKeepsGenes | PetriObjModelPaint/src/LibTest/TERM_PAPER/EVOLUTIONARY_SELECTION/TrafficLightCrossoverOperator.java:39-52 | The two children together hold exactly the multiset of the parents' genes. |
| TrafficLightCrossover.CrossingTwice | PetriObjModelPaint/src/LibTest/TERM_PAPER/EVOLUTIONARY_SELECTION/TrafficLightCrossoverOperator.java:39-52 | Crossing the children again with the same draws gives back the parents. |
| TrafficLightCrossover.Crossover | PetriObjModelPaint/src/LibTest/TERM_PAPER/EVOLUTIONARY_SELECTION/TrafficLightCrossoverOperator.java:27-58 | There are exactly two evaluated children with the crossed genes. Four-gene parents give four-gene children, and plain copies of evaluated parents equal the parents. |
| TrafficLightPopulation.Entrants | PetriObjModelPaint/src/LibTest/TERM_PAPER/EVOLUTIONARY_SELECTION/TrafficLightPopulation.java:56-59 | A tournament's entrants are the individuals at the drawn indices, in draw order. |
| TrafficLightPopulation.Winner | PetriObjModelPaint/src/LibTest/TERM_PAPER/EVOLUTIONARY_SELECTION/TrafficLightPopulation.java:56-61 | The winner is a population member whose fitness is at most every entrant's. |
| TrafficLightPopulation.Selection | PetriObjModelPaint/src/LibTest/TERM_PAPER/EVOLUTIONARY_SELECTION/TrafficLightPopulation.java:49-65 | There are exactly selectionCount winners, each a member with fitness at most every entrant of its tournament. |
| TrafficLightPopulation.SelectionSound | PetriObjModelPaint/src/LibTest/TERM_PAPER/EVOLUTIONARY_SELECTION/TrafficLightPopulation.java:53-64 | Winners drawn from a population of evaluated four-gene individuals are evaluated four-gene individuals too. |
| TrafficLightPopulation.Brood | PetriObjModelPaint/src/LibTest/TERM_PAPER/EVOLUTIONARY_SELECTION/TrafficLightPopulation.java:77-83 | A turn of the loop adds exactly two evaluated four-gene individuals. |
| TrafficLightPopulation.BroodGenes | PetriObjModelPaint/src/LibTest/TERM_PAPER/EVOLUTIONARY_SELECTION/TrafficLightPopulation.java:77-83 | Those two individuals carry the crossed genes of the pair, each mutated under its own draws. |
| TrafficLightPopulation.BredSound | PetriObjModelPaint/src/LibTest/TERM_PAPER/EVOLUTIONARY_SELECTION/TrafficLightPopulation.java:76-84 | Breeding all pairs gives as many individuals as parents, all evaluated with four genes. |
| TrafficLightPopulation.BredPairs | PetriObjModelPaint/src/LibTest/TERM_PAPER/EVOLUTIONARY_SELECTION/TrafficLightPopulation.java:76-84 | New individuals 2k and 2k + 1 are the brood of parents 2k and 2k + 1. |
| TrafficLightPopulation.BredExtend | PetriObjModelPaint/src/LibTest/TERM_PAPER/EVOLUTIONARY_SELECTION/TrafficLightPopulation.java:76-84 | Breeding one more pair appends that pair's brood. |
| TrafficLightPopulation.NextGeneration | PetriObjModelPaint/src/LibTest/TERM_PAPER/EVOLUTIONARY_SELECTION/TrafficLightPopulation.java:73-86 | The loop as written fails exactly when the number of parents is odd. Otherwise it yields as many evaluated four-gene individuals as parents. |
| TrafficLightPopulation.EvolveHalves | PetriObjModelPaint/src/LibTest/TERM_PAPER/EVOLUTIONARY_SELECTION/TrafficLightPopulation.java:72-86 | When evolve succeeds, the new population has size/2 individuals, strictly fewer than a non-empty old one. |
| TrafficLightPopulation.NextGenerationOfSelection | PetriObjModelPaint/src/LibTest/TERM_PAPER/EVOLUTIONARY_SELECTION/TrafficLightPopulation.java:72-84 | With an even number of tournaments, the loop succeeds and yields the bred winners, one per tournament, all evaluated. |
| TrafficLightPopulation.FiftyIndividualsFail | PetriObjModelPaint/src/LibTest/TERM_PAPER/EVOLUTIONARY_SELECTION/TrafficLightGeneticAlgorithm.java:18 | With 50 individuals, 25 parents are selected and the loop reads past the end of the list. |
| TrafficLightPopulation.KeptGeneration | PetriObjModelPaint/src/LibTest/TERM_PAPER/EVOLUTIONARY_SELECTION/TrafficLightPopulation.java:70-87 | Corrected evolve: it selects an even number of parents, at least the size, and keeps the size. Every new individual is evaluated with four genes. |
| TrafficLightPopulation.KeptPairs | PetriObjModelPaint/src/LibTest/TERM_PAPER/EVOLUTIONARY_SELECTION/TrafficLightPopulation.java:76-84 | In the corrected evolve, each kept individual is the brood of its consecutive pair of winners. |
| TrafficLightPopulation.Population.constructor | PetriObjModelPaint/src/LibTest/TERM_PAPER/EVOLUTIONARY_SELECTION/TrafficLightPopulation.java:28-41 | There are exactly populationSize individuals, individual k made by the random constructor from its draws. |
| TrafficLightPopulation.SelectionExtend | PetriObjModelPaint/src/LibTest/TERM_PAPER/EVOLUTIONARY_SELECTION/TrafficLightPopulation.java:55-62 | Running one more tournament appends exactly that tournament's winner to the winners so far. |
| TrafficLightPopulation.Population.TournamentSelection | PetriObjModelPaint/src/LibTest/TERM_PAPER/EVOLUTIONARY_SELECTION/TrafficLightPopulation.java:49-65 | The loop's list of winners equals Selection of the population. |
| TrafficLightPopulation.Population.Entered | PetriObjModelPaint/src/LibTest/TERM_PAPER/EVOLUTIONARY_SELECTION/TrafficLightPopulation.java:56-59 | The inner loop's list equals the entrants of the tournament. |
| TrafficLightPopulation.Population.BreedPair | PetriObjModelPaint/src/LibTest/TERM_PAPER/EVOLUTIONARY_SELECTION/TrafficLightPopulation.java:77-83 | One turn of the loop yields the pair's brood. |
| TrafficLightPopulation.Population.AddBrood | PetriObjModelPaint/src/LibTest/TERM_PAPER/EVOLUTIONARY_SELECTION/TrafficLightPopulation.java:77-83 | Appending the brood of the pair at i to the generation bred from the earlier pairs gives the generation bred from one more pair. |
| TrafficLightPopulation.Population.BreedAll | PetriObjModelPaint/src/LibTest/TERM_PAPER/EVOLUTIONARY_SELECTION/TrafficLightPopulation.java:76-84 | The loop over consecutive pairs yields the bred generation. |
| TrafficLightPopulation.Population.Evolve | PetriObjModelPaint/src/LibTest/TERM_PAPER/EVOLUTIONARY_SELECTION/TrafficLightPopulation.java:70-87 | When size/2 is even, the population becomes the as-written next generation of the tournament winners. It has half the old size and every individual is evaluated with four genes. |
| TrafficLightPopulation.Population.GetBestIndividual | PetriObjModelPaint/src/LibTest/TERM_PAPER/EVOLUTIONARY_SELECTION/TrafficLightPopulation.java:93-95 | The result is the first member of least fitness: no member is lower, and every earlier one is strictly higher. The source throws on an empty population. |
| FitnessStats.SortValues | PetriObjModelPaint/src/LibTest/TERM_PAPER/EVOLUTIONARY_SELECTION/EnhancedFitnessVisualization.java:128 | The caller's array becomes an ascending permutation of itself. |
| FitnessStats.Median | PetriObjModelPaint/src/LibTest/TERM_PAPER/EVOLUTIONARY_SELECTION/EnhancedFitnessVisualization.java:129-134 | On ascending values, the lower half is at most the median and the upper half at least it. |
| FitnessStats.CalculateMedian | PetriObjModelPaint/src/LibTest/TERM_PAPER/EVOLUTIONARY_SELECTION/EnhancedFitnessVisualization.java:127-135 | The caller's array is left sorted, as a permutation of itself, and the result is the median of the sorted values. |
| FitnessStats.MedianWithinRange | PetriObjModelPaint/src/LibTest/TERM_PAPER/EVOLUTIONARY_SELECTION/EnhancedFitnessVisualization.java:128-134 | The median lies between the least and the greatest input value. |
| FitnessStats.MedianOfSameValues | PetriObjModelPaint/src/LibTest/TERM_PAPER/EVOLUTIONARY_SELECTION/EnhancedFitnessVisualization.java:128-134 | The median depends only on the multiset of values, not on their input order. |
| FitnessStats.Ceil | PetriObjModelPaint/src/LibTest/TERM_PAPER/EVOLUTIONARY_SELECTION/EnhancedFitnessVisualization.java:146 | Math.ceil gives the least integer not below its argument. |
| FitnessStats.ToJavaInt | PetriObjModelPaint/src/LibTest/TERM_PAPER/EVOLUTIONARY_SELECTION/EnhancedFitnessVisualization.java:146 | The (int) cast saturates into the int range and keeps values already in it. |
| FitnessStats.MinusOne | PetriObjModelPaint/src/LibTest/TERM_PAPER/EVOLUTIONARY_SELECTION/EnhancedFitnessVisualization.java:146 | Subtracting one in int arithmetic wraps from the least int to the greatest. |
| FitnessStats.PercentileIndex | PetriObjModelPaint/src/LibTest/TERM_PAPER/EVOLUTIONARY_SELECTION/EnhancedFitnessVisualization.java:146-147 | The clamped index is always within the array. |
| FitnessStats.CalculatePercentile | PetriObjModelPaint/src/LibTest/TERM_PAPER/EVOLUTIONARY_SELECTION/EnhancedFitnessVisualization.java:144-148 | The caller's array is left sorted, as a permutation of itself. The result is the sorted value at the percentile index and is one of the input values. |
| FitnessStats.PercentileIsNearestRank | PetriObjModelPaint/src/LibTest/TERM_PAPER/EVOLUTIONARY_SELECTION/EnhancedFitnessVisualization.java:146 | For p in (0, 100], the index i is the nearest rank: i < p/100 * n <= i + 1. |
| FitnessStats.PercentileIndexMonotone | PetriObjModelPaint/src/LibTest/TERM_PAPER/EVOLUTIONARY_SELECTION/EnhancedFitnessVisualization.java:146-147 | A larger non-negative percentile never gives a smaller index. |
| FitnessStats.PercentileMonotone | PetriObjModelPaint/src/LibTest/TERM_PAPER/EVOLUTIONARY_SELECTION/EnhancedFitnessVisualization.java:145-147 | On sorted values, p <= q gives percentile(p) <= percentile(q) for non-negative p. |
| FitnessStats.HugeNegativePercentileReadsLast | PetriObjModelPaint/src/LibTest/TERM_PAPER/EVOLUTIONARY_SELECTION/EnhancedFitnessVisualization.java:146 | A percentile whose ceiling saturates to the least int wraps on the subtraction and reads the greatest value. |
| SurfaceData.FlattenIndex | PetriObjModelPaint/src/LibTest/TERM_PAPER/EVOLUTIONARY_SELECTION/VISUALIZATION/3d_results.py:35 | With rows of width w, value j of row i sits at flat index i * w + j. |
| SurfaceData.FlattenLength | PetriObjModelPaint/src/LibTest/TERM_PAPER/EVOLUTIONARY_SELECTION/VISUALIZATION/3d_results.py:35 | With rows of width w, the flattened data has rows * w values. |
| SurfaceData.PrepareSurfaceData | PetriObjModelPaint/src/LibTest/TERM_PAPER/EVOLUTIONARY_SELECTION/VISUALIZATION/3d_results.py:32-43 | Both axes are 10..91. The fresh 82 x 82 grid holds flat value i * 82 + j where one exists and 0 elsewhere, and no read is out of range. |
| SurfaceData.FillRow | PetriObjModelPaint/src/LibTest/TERM_PAPER/EVOLUTIONARY_SELECTION/VISUALIZATION/3d_results.py:38-41 | The inner loop fills row i and leaves every other row alone. |
| SurfaceData.SurfaceOfFullRows | PetriObjModelPaint/src/LibTest/TERM_PAPER/EVOLUTIONARY_SELECTION/VISUALIZATION/3d_results.py:35-41 | On rows of 82 values, cell (i, j) is data[i][j] for every row present and 0 beyond. |
| ResultsSurface.PrepareSurfaceData | EVOLUTIONARY_SELECTION/VISUALIZATION/results_3d.py:32-40 | Both axes are 10..90. The fresh 81 x 81 grid is the top-left block of the data, which must have 81 rows of at least 81 values. |
| ResultsSurface.CopyRow | EVOLUTIONARY_SELECTION/VISUALIZATION/results_3d.py:37-38 | The inner loop copies row i and leaves every other row alone. |
| ResultsSurface.CornerOfFlattenedGrid | EVOLUTIONARY_SELECTION/VISUALIZATION/results_3d.py:32-38 | On 82-wide data, this grid is the top-left corner of the grid the flattening variant builds. |

## Left out

- The PetriObj simulation kernel is not part of this model: `PetriObjModel.go`, timed scheduling, exponential sampling, and `getMean`/`getMark`. Replications are an oracle from the model and the run number to place statistics, or to a failure. Only the untimed firing rule is modelled, to state the net invariants.
- The library's global id counters (`resetNextCounters`) become per-call numbering of the 22 places.
- `java.util.Random` and numpy randomness become explicit draws passed in.
- Console output, CSV writing, `main`, `printStatistics`, charting, `plot_3d_surface` and `read_data` are input and output and are not modelled.
- Doubles are modelled as reals: no rounding, no NaN and no infinities. `Double.MAX_VALUE` is its exact value.
- The GAs evaluate genes with an abstract evaluator. The evaluator is `None` exactly when the source's evaluation throws.
- The real-valued GAs pass `double[]` genes to an `int[]` builder and call a `getIndividualMetric(model)` overload that does not exist. So their evaluator is abstract and not tied to `Fitness.GoStats`.
- `getIndividuals`, `getPhaseTimes` and `getFitness` are not separate members. An individual's genes and a population's list are immutable values here, so returning them hands out nothing the caller could change.
- Evolution.FitnessOf: with the `goStats` shown, the penalty branch is unreachable because `goStats` catches the exception itself. The model keeps the branch for an evaluator that fails.
- Evolution.MutatedGenes: Java int overflow of `phaseTimes[i] + r - MUTATION_DEV` before clamping is not modelled; genes are unbounded integers.
- Evolution.Population.constructor: int overflow of the unclamped shifts of genes 0 and 2 is not modelled. When MAX_PHASE_TIME < MIN_PHASE_TIME and size > 0, `nextInt` throws IllegalArgumentException; the model takes the draws as given and does not model that exception.
- Evolution.Population.SortByFitness: the stability of `Arrays.sort` is not stated. The ensures says sorted and a permutation.
- Optimizer.Population.SortByFitness: the stability of `Arrays.sort` is not stated. The ensures says sorted and a permutation.
- Fitness.GoStats: covers only the shape of the result, its row count and what each row holds. The run itself is the oracle.
- Crossroads.ConnectTrafficSubsystems: nets are values in an array. The aliasing of the library's net objects, which other holders of the list would see, is not modelled.
- SurfaceData.PrepareSurfaceData: `data.flatten()` is modelled as the rows concatenated. numpy's handling of rows of different lengths is not modelled.

## Findings

| source | as written | input that shows it | evidently intended | confidence | as-written member | corrected member |
|---|---|---|---|---|---|---|
| PetriObjModelPaint/src/LibTest/TERM_PAPER/EVOLUTIONARY_SELECTION/TrafficLightPopulation.java:72-84 | evolve selects size / 2 parents and reads parents i and i + 1 for every even i below that count. An odd count reads past the end, and a successful call halves the population. | A population of 50, as TrafficLightGeneticAlgorithm.java:18 configures it: 25 parents, so the first call reads parent 25 of 25. | Select an even number of parents, at least the size, and keep the population size from one generation to the next. | not executed | TrafficLightPopulation.NextGeneration | TrafficLightPopulation.KeptGeneration |
