/** The intersection model of AdjustableCrossroads: a control net that cycles through four signal
    phases and four directional nets (arrival, queue, crossing), the wiring that makes each
    directional net's guard slot consult one of the control net's two "green" places, and the
    invariants of the untimed token game on the result. */
module Crossroads {
  import opened Common
  import opened Petri

  const SimulationTime: real := 1000.0
  const Iterations: nat := 2
  const PhaseTimesInit: seq<int> := [20, 10, 30, 10]
  const ArrivalTimesInit: seq<real> := [15.0, 9.0, 20.0, 35.0]

  /** Deterministic time a car needs to cross. */
  const CrossingTime: real := 2.0

  // Control net slots: 0 "green in directions 1 and 2", 1 "to phase 2", 2 "to phase 3",
  // 3 "to phase 4", 4 "to phase 1", 5 "green in directions 3 and 4".
  // Transitions: 0 green 1/2, 1 yellow no.1, 2 green 3/4, 3 yellow no.2.
  const Green12: nat := 0
  const Green34: nat := 5
  const ControlTokens: seq<int> := [1, 1, 0, 0, 0, 0]
  const ControlArcIns: seq<ArcIn> :=
    [ArcIn(1, 1, 1, false), ArcIn(2, 2, 1, false), ArcIn(3, 3, 1, false),
     ArcIn(4, 0, 1, false), ArcIn(0, 1, 1, false), ArcIn(5, 3, 1, false)]
  const ControlArcOuts: seq<ArcOut> :=
    [ArcOut(0, 1, 1), ArcOut(1, 2, 1), ArcOut(2, 3, 1),
     ArcOut(3, 4, 1), ArcOut(1, 5, 1), ArcOut(3, 0, 1)]

  // Directional net slots: 0 arrival source, 1 cars waiting, 2 cars that have crossed,
  // 3 "green in this direction" (the guard). Transitions: 0 arrival, 1 crossing.
  const DirectionalTokens: seq<int> := [1, 0, 0, 0]
  const DirectionalArcIns: seq<ArcIn> := [ArcIn(0, 0, 1, false), ArcIn(1, 1, 1, false), ArcIn(3, 1, 1, true)]
  const DirectionalArcOuts: seq<ArcOut> := [ArcOut(0, 0, 1), ArcOut(0, 1, 1), ArcOut(1, 2, 1)]

  /** A freshly built net and the initial token counts of the places it allocated. */
  datatype Subsystem = Subsystem(net: Net, tokens: seq<int>)

  /** `count` consecutive place ids starting at the builder's next free id. */
  function Consecutive(base: PlaceId, count: nat): (r: seq<PlaceId>)
    ensures |r| == count && forall i | 0 <= i < count :: r[i] == base + i
  {
    seq(count, i => base + i)
  }

  /** Attaches the control arcs to six places and four transitions. */
  function GetPetriNetManagementSubsystem(slots: seq<PlaceId>, transitions: seq<Transition>): (n: Net)
    requires |slots| >= 6 && |transitions| >= 4
    ensures n.slots == slots && n.transitions == transitions
    ensures forall a | a in n.arcIns :: a.place < 6 && a.transition < 4 && !a.informational
    ensures forall a | a in n.arcOuts :: a.place < 6 && a.transition < 4
  {
    Net(slots, transitions, ControlArcIns, ControlArcOuts)
  }

  /** The control net: six new places marked [1, 1, 0, 0, 0, 0] and four deterministic transitions
      whose delays are the four phase times in order. */
  function CreateManagementSubsystem(phaseTimes: seq<int>, base: PlaceId): (r: Subsystem)
    requires |phaseTimes| >= 4
    ensures r.tokens == [1, 1, 0, 0, 0, 0] && r.net.slots == Consecutive(base, 6)
    ensures |r.net.transitions| == 4
    ensures forall i | 0 <= i < 4 :: r.net.transitions[i] == Transition(phaseTimes[i] as real, Deterministic)
    ensures r.net.arcIns == ControlArcIns && r.net.arcOuts == ControlArcOuts
  {
    var transitions := [Transition(phaseTimes[0] as real, Deterministic), Transition(phaseTimes[1] as real, Deterministic),
                        Transition(phaseTimes[2] as real, Deterministic), Transition(phaseTimes[3] as real, Deterministic)];
    Subsystem(GetPetriNetManagementSubsystem(Consecutive(base, 6), transitions), ControlTokens)
  }

  /** Attaches the directional arcs; the arc from the guard slot to the crossing is informational. */
  function GetPetriNetDirectionalTrafficSubsystem(slots: seq<PlaceId>, transitions: seq<Transition>): (n: Net)
    requires |slots| >= 4 && |transitions| >= 2
    ensures n.slots == slots && n.transitions == transitions
    ensures forall a | a in n.arcIns :: a.place < 4 && a.transition < 2 && (a.informational <==> a.place == 3)
    ensures forall a | a in n.arcOuts :: a.place < 3 && a.transition < 2
  {
    Net(slots, transitions, DirectionalArcIns, DirectionalArcOuts)
  }

  /** A directional net: four new places marked [1, 0, 0, 0], an exponential arrival transition with
      the direction's mean inter-arrival time and a deterministic crossing transition. */
  function CreateDirectionalTrafficSubsystem(arrivalTime: real, base: PlaceId): (r: Subsystem)
    ensures r.tokens == [1, 0, 0, 0] && r.net.slots == Consecutive(base, 4)
    ensures r.net.transitions == [Transition(arrivalTime, Exponential), Transition(CrossingTime, Deterministic)]
    ensures r.net.arcIns == DirectionalArcIns && r.net.arcOuts == DirectionalArcOuts
  {
    var transitions := [Transition(arrivalTime, Exponential), Transition(CrossingTime, Deterministic)];
    Subsystem(GetPetriNetDirectionalTrafficSubsystem(Consecutive(base, 4), transitions), DirectionalTokens)
  }

  /** The five nets in order, each on the places it allocated: control first (ids 0..5), then the
      net of direction i on ids 6 + 4 * i .. 9 + 4 * i. */
  function SimulationModels(phaseTimes: seq<int>, arrivalTimes: seq<real>): (md: Model)
    requires |phaseTimes| >= 4 && |arrivalTimes| >= 4
  {
    Model(ControlTokens + DirectionalTokens + DirectionalTokens + DirectionalTokens + DirectionalTokens,
          [CreateManagementSubsystem(phaseTimes, 0).net,
           CreateDirectionalTrafficSubsystem(arrivalTimes[0], 6).net,
           CreateDirectionalTrafficSubsystem(arrivalTimes[1], 10).net,
           CreateDirectionalTrafficSubsystem(arrivalTimes[2], 14).net,
           CreateDirectionalTrafficSubsystem(arrivalTimes[3], 18).net])
  }

  /** Builds the list of nets as the source does, allocating place ids from a counter local to
      this call. */
  method CreateSimulationModels(phaseTimes: seq<int>, arrivalTimes: seq<real>) returns (md: Model)
    requires |phaseTimes| >= 4 && |arrivalTimes| >= 4
    ensures md == SimulationModels(phaseTimes, arrivalTimes)
    ensures |md.nets| == 5 && |md.initial| == 22
    ensures md.nets[0] == CreateManagementSubsystem(phaseTimes, 0).net
    ensures forall i | 0 <= i < 4 :: md.nets[i + 1] == CreateDirectionalTrafficSubsystem(arrivalTimes[i], 6 + 4 * i).net
  {
    ghost var spec := SimulationModels(phaseTimes, arrivalTimes);
    var control := CreateManagementSubsystem(phaseTimes, 0);
    var nets := [control.net];
    var tokens := control.tokens;
    for i := 0 to 4
      invariant nets == spec.nets[..i + 1]
      invariant tokens == spec.initial[..6 + 4 * i]
    {
      var direction := CreateDirectionalTrafficSubsystem(arrivalTimes[i], |tokens|);
      nets := nets + [direction.net];
      tokens := tokens + direction.tokens;
    }
    md := Model(tokens, nets);
  }

  /** The nets after connectTrafficSubsystems: slot 3 of nets 1 and 2 now holds the place in the
      control net's slot 0, slot 3 of nets 3 and 4 the place in its slot 5. */
  function Connected(nets: seq<Net>): (r: seq<Net>)
    requires |nets| >= 5 && |nets[0].slots| >= 6
    requires forall k | 1 <= k <= 4 :: |nets[k].slots| >= 4
    ensures |r| == |nets|
  {
    var green12 := nets[0].slots[0];
    var green34 := nets[0].slots[5];
    nets[1 := nets[1].(slots := nets[1].slots[3 := green12])]
        [2 := nets[2].(slots := nets[2].slots[3 := green12])]
        [3 := nets[3].(slots := nets[3].slots[3 := green34])]
        [4 := nets[4].(slots := nets[4].slots[3 := green34])]
  }

  /** Connecting rewires exactly slot 3 of the four directional nets, to the green place of the
      control net that serves the direction, and changes no other slot, transition or arc. */
  lemma ConnectedRewires(nets: seq<Net>)
    requires |nets| >= 5 && |nets[0].slots| >= 6
    requires forall k | 1 <= k <= 4 :: |nets[k].slots| >= 4
    ensures var r := Connected(nets);
      && |r| == |nets| && (forall k | 0 <= k < |r| :: |r[k].slots| == |nets[k].slots|)
      && r[1].slots[3] == r[2].slots[3] == nets[0].slots[0]
      && r[3].slots[3] == r[4].slots[3] == nets[0].slots[5]
      && (forall k, s | 0 <= k < |r| && 0 <= s < |r[k].slots| && !(1 <= k <= 4 && s == 3) ::
           r[k].slots[s] == nets[k].slots[s])
      && forall k | 0 <= k < |r| ::
           && r[k].transitions == nets[k].transitions
           && r[k].arcIns == nets[k].arcIns && r[k].arcOuts == nets[k].arcOuts
  {
  }

  /** connectTrafficSubsystems: overwrites slot 3 of the four directional nets in place. */
  method ConnectTrafficSubsystems(models: array<Net>)
    requires models.Length >= 5 && |models[0].slots| >= 6
    requires forall k | 1 <= k <= 4 :: |models[k].slots| >= 4
    modifies models
    ensures models[..] == Connected(old(models[..]))
  {
    var green12 := models[0].slots[0];
    var green34 := models[0].slots[5];
    models[1] := models[1].(slots := models[1].slots[3 := green12]);
    models[2] := models[2].(slots := models[2].slots[3 := green12]);
    models[3] := models[3].(slots := models[3].slots[3 := green34]);
    models[4] := models[4].(slots := models[4].slots[3 := green34]);
  }

  /** The model goStats hands to the kernel: built, then connected. */
  function WiredModel(phaseTimes: seq<int>, arrivalTimes: seq<real>): (md: Model)
    requires |phaseTimes| >= 4 && |arrivalTimes| >= 4
  {
    var built := SimulationModels(phaseTimes, arrivalTimes);
    Model(built.initial, Connected(built.nets))
  }

  /** The model of the two evaluators that build the nets without connecting them. */
  function IntersectionModel(phaseTimes: seq<int>, arrivalTimes: seq<real>, connected: bool): Model
    requires |phaseTimes| >= 4 && |arrivalTimes| >= 4
  {
    if connected then WiredModel(phaseTimes, arrivalTimes) else SimulationModels(phaseTimes, arrivalTimes)
  }

  // Arena ids of the places of direction d.
  function Source(d: nat): PlaceId { 6 + 4 * d }
  function Queue(d: nat): PlaceId { 7 + 4 * d }
  function Departed(d: nat): PlaceId { 8 + 4 * d }
  function Guard(d: nat): PlaceId { 9 + 4 * d }

  /** The control place that lets direction d cross once connected. */
  function GreenOf(d: nat): PlaceId { if d < 2 then Green12 else Green34 }

  /** The slots of the net of direction d: its own source, queue and departed places, and in slot 3
      its own guard place, or after connecting the control place that turns it green. */
  function DirectionSlots(d: nat, connected: bool): seq<PlaceId>
  {
    [Source(d), Queue(d), Departed(d), if connected then GreenOf(d) else Guard(d)]
  }

  const ControlSlots: seq<PlaceId> := [0, 1, 2, 3, 4, 5]

  /** One token in each of the control places 0 and 1 and in each direction's source place. */
  const InitialArena: Marking := [1, 1, 0, 0, 0, 0, 1, 0, 0, 0, 1, 0, 0, 0, 1, 0, 0, 0, 1, 0, 0, 0]

  /** The initial marking createSimulationModels builds, connected or not, is InitialArena. */
  lemma InitialMarking(phaseTimes: seq<int>, arrivalTimes: seq<real>, connected: bool)
    requires |phaseTimes| >= 4 && |arrivalTimes| >= 4
    ensures IntersectionModel(phaseTimes, arrivalTimes, connected).initial == InitialArena
  {
    assert IntersectionModel(phaseTimes, arrivalTimes, connected).initial == SimulationModels(phaseTimes, arrivalTimes).initial;
  }

  /** The control places start in the first phase, every source holds its token and every queue,
      departed and guard place is empty. */
  lemma InitialArenaPlaces()
    ensures |InitialArena| == 22 && InPhase(InitialArena, ControlSlots, Green12Phase)
    ensures forall d | 0 <= d < 4 ::
      && InitialArena[Source(d)] == 1 && InitialArena[Queue(d)] == 0
      && InitialArena[Departed(d)] == 0 && InitialArena[Guard(d)] == 0
  {
    forall d | 0 <= d < 4
      ensures InitialArena[Source(d)] == 1 && InitialArena[Queue(d)] == 0
      ensures InitialArena[Departed(d)] == 0 && InitialArena[Guard(d)] == 0
    {
      if d == 0 {
      } else if d == 1 {
      } else if d == 2 {
      } else {
      }
    }
  }

  /** Net 0 of the intersection is the control net on places 0..5, connected or not. */
  lemma ControlNetShape(phaseTimes: seq<int>, arrivalTimes: seq<real>, connected: bool)
    requires |phaseTimes| >= 4 && |arrivalTimes| >= 4
    ensures var md := IntersectionModel(phaseTimes, arrivalTimes, connected);
      && |md.nets| == 5 && |md.initial| == 22
      && md.nets[0].slots == ControlSlots && |md.nets[0].transitions| == 4
      && md.nets[0].arcIns == ControlArcIns && md.nets[0].arcOuts == ControlArcOuts
      && Injective(ControlSlots) && WellFormed(md.nets[0], 22)
  {
    var built := SimulationModels(phaseTimes, arrivalTimes);
    assert built.nets[0].slots == ControlSlots;
  }

  /** Net d + 1 of the intersection is the net of direction d, on the slots DirectionSlots names. */
  lemma DirectionNetShape(phaseTimes: seq<int>, arrivalTimes: seq<real>, connected: bool, d: nat)
    requires |phaseTimes| >= 4 && |arrivalTimes| >= 4 && d < 4
    ensures var md := IntersectionModel(phaseTimes, arrivalTimes, connected);
      && |md.nets| == 5 && |md.initial| == 22
      && md.nets[d + 1].slots == DirectionSlots(d, connected) && |md.nets[d + 1].transitions| == 2
      && md.nets[d + 1].arcIns == DirectionalArcIns && md.nets[d + 1].arcOuts == DirectionalArcOuts
      && Injective(DirectionSlots(d, connected)) && WellFormed(md.nets[d + 1], 22)
  {
    var built := SimulationModels(phaseTimes, arrivalTimes);
    var md := IntersectionModel(phaseTimes, arrivalTimes, connected);
    var n := CreateDirectionalTrafficSubsystem(arrivalTimes[d], Source(d)).net;
    BuiltDirectionNet(phaseTimes, arrivalTimes, d);
    assert n.slots == DirectionSlots(d, false);
    if connected {
      assert md.nets == Connected(built.nets);
      assert md.nets[d + 1] == n.(slots := n.slots[3 := GreenOf(d)]);
    }
    assert md.nets[d + 1].slots == DirectionSlots(d, connected);
    DirectionSlotsInArena(d, connected);
  }

  /** Net d + 1 as built is the directional net on the four places from Source(d). */
  lemma BuiltDirectionNet(phaseTimes: seq<int>, arrivalTimes: seq<real>, d: nat)
    requires |phaseTimes| >= 4 && |arrivalTimes| >= 4 && d < 4
    ensures |SimulationModels(phaseTimes, arrivalTimes).nets| == 5
    ensures SimulationModels(phaseTimes, arrivalTimes).nets[d + 1] == CreateDirectionalTrafficSubsystem(arrivalTimes[d], Source(d)).net
  {
  }

  /** The slots of direction d are distinct places of the 22-place arena. */
  lemma DirectionSlotsInArena(d: nat, connected: bool)
    requires d < 4
    ensures Injective(DirectionSlots(d, connected))
    ensures forall s | 0 <= s < 4 :: DirectionSlots(d, connected)[s] < 22
  {
  }

  /** Every net of the intersection refers only to arena places, slots and transitions it has. */
  lemma ModelValid(phaseTimes: seq<int>, arrivalTimes: seq<real>, connected: bool)
    requires |phaseTimes| >= 4 && |arrivalTimes| >= 4
    ensures ValidModel(IntersectionModel(phaseTimes, arrivalTimes, connected))
  {
    var md := IntersectionModel(phaseTimes, arrivalTimes, connected);
    ControlNetShape(phaseTimes, arrivalTimes, connected);
    forall k | 0 <= k < |md.nets|
      ensures WellFormed(md.nets[k], |md.initial|)
    {
      if k > 0 {
        DirectionNetShape(phaseTimes, arrivalTimes, connected, k - 1);
      }
    }
  }

  /** The four phases of the signal cycle, in firing order. */
  datatype Phase = Green12Phase | Yellow1Phase | Green34Phase | Yellow2Phase

  /** Tokens in the six control places during each phase. */
  function PhaseTokens(p: Phase): (c: seq<int>)
    ensures |c| == 6
  {
    match p
    case Green12Phase => [1, 1, 0, 0, 0, 0]
    case Yellow1Phase => [0, 0, 1, 0, 0, 1]
    case Green34Phase => [0, 0, 0, 1, 0, 1]
    case Yellow2Phase => [1, 0, 0, 0, 1, 0]
  }

  /** The one control transition each phase enables. */
  function PhaseTransition(p: Phase): nat
  {
    match p
    case Green12Phase => 1
    case Yellow1Phase => 2
    case Green34Phase => 3
    case Yellow2Phase => 0
  }

  function NextPhase(p: Phase): Phase
  {
    match p
    case Green12Phase => Yellow1Phase
    case Yellow1Phase => Green34Phase
    case Green34Phase => Yellow2Phase
    case Yellow2Phase => Green12Phase
  }

  /** The places in the six control slots hold exactly the tokens of phase p. */
  predicate InPhase(m: Marking, slots: seq<PlaceId>, p: Phase)
    requires |slots| == 6 && forall s | 0 <= s < 6 :: slots[s] < |m|
  {
    var c := PhaseTokens(p);
    && m[slots[0]] == c[0] && m[slots[1]] == c[1] && m[slots[2]] == c[2]
    && m[slots[3]] == c[3] && m[slots[4]] == c[4] && m[slots[5]] == c[5]
  }

  /** The enabling condition of each control transition, read off the control arcs. */
  lemma ControlEnabling(n: Net, m: Marking)
    requires n.arcIns == ControlArcIns && |n.slots| == 6 && |n.transitions| == 4 && WellFormed(n, |m|)
    ensures Enabled(n, m, 0) <==> m[n.slots[4]] >= 1
    ensures Enabled(n, m, 1) <==> m[n.slots[1]] >= 1 && m[n.slots[0]] >= 1
    ensures Enabled(n, m, 2) <==> m[n.slots[2]] >= 1
    ensures Enabled(n, m, 3) <==> m[n.slots[3]] >= 1 && m[n.slots[5]] >= 1
    ensures forall t | t >= 4 :: !Enabled(n, m, t)
  {
    assert ControlArcIns[0] in n.arcIns && ControlArcIns[1] in n.arcIns && ControlArcIns[2] in n.arcIns;
    assert ControlArcIns[3] in n.arcIns && ControlArcIns[4] in n.arcIns && ControlArcIns[5] in n.arcIns;
  }

  /** In each phase the control arcs enable no transition but the phase's own. */
  lemma ControlEnablesOne(n: Net, m: Marking, p: Phase, t: nat)
    requires ControlNet(n, m) && InPhase(m, n.slots, p)
    ensures Enabled(n, m, t) <==> t == PhaseTransition(p)
  {
    ControlEnabling(n, m);
  }

  /** The hypotheses every lemma about a firing of the control net needs. */
  predicate ControlNet(n: Net, m: Marking)
  {
    && n.arcIns == ControlArcIns && n.arcOuts == ControlArcOuts
    && |n.slots| == 6 && |n.transitions| == 4 && Injective(n.slots) && WellFormed(n, |m|)
  }

  /** The count of tokens control transition t takes from slot s, read off the control arcs:
      transition 0 takes from slot 4, 1 from slots 0 and 1, 2 from slot 2, 3 from slots 3 and 5. */
  function ControlTakes(t: nat, s: nat): nat
  {
    if (t == 0 && s == 4) || (t == 1 && (s == 0 || s == 1)) || (t == 2 && s == 2) || (t == 3 && (s == 3 || s == 5))
    then 1 else 0
  }

  /** The count of tokens control transition t puts into slot s: transition 0 puts into slot 1,
      1 into slots 2 and 5, 2 into slot 3, 3 into slots 4 and 0. */
  function ControlPuts(t: nat, s: nat): nat
  {
    if (t == 0 && s == 1) || (t == 1 && (s == 2 || s == 5)) || (t == 2 && s == 3) || (t == 3 && (s == 4 || s == 0))
    then 1 else 0
  }

  lemma ControlConsumed(t: nat, s: nat)
    ensures ConsumedAt(ControlArcIns, t, s) == ControlTakes(t, s)
  {
    var ins := ControlArcIns;
    assert ConsumedAt(ins[5..], t, s) == ConsumedAt([ArcIn(5, 3, 1, false)], t, s);
    assert ConsumedAt(ins[4..], t, s) == ConsumedAt([ArcIn(0, 1, 1, false)], t, s) + ConsumedAt(ins[5..], t, s);
    assert ConsumedAt(ins[3..], t, s) == ConsumedAt([ArcIn(4, 0, 1, false)], t, s) + ConsumedAt(ins[4..], t, s);
    assert ConsumedAt(ins[2..], t, s) == ConsumedAt([ArcIn(3, 3, 1, false)], t, s) + ConsumedAt(ins[3..], t, s);
    assert ConsumedAt(ins[1..], t, s) == ConsumedAt([ArcIn(2, 2, 1, false)], t, s) + ConsumedAt(ins[2..], t, s);
    assert ConsumedAt(ins, t, s) == ConsumedAt([ArcIn(1, 1, 1, false)], t, s) + ConsumedAt(ins[1..], t, s);
  }

  lemma ControlProduced(t: nat, s: nat)
    ensures ProducedAt(ControlArcOuts, t, s) == ControlPuts(t, s)
  {
    var outs := ControlArcOuts;
    assert ProducedAt(outs[5..], t, s) == ProducedAt([ArcOut(3, 0, 1)], t, s);
    assert ProducedAt(outs[4..], t, s) == ProducedAt([ArcOut(1, 5, 1)], t, s) + ProducedAt(outs[5..], t, s);
    assert ProducedAt(outs[3..], t, s) == ProducedAt([ArcOut(3, 4, 1)], t, s) + ProducedAt(outs[4..], t, s);
    assert ProducedAt(outs[2..], t, s) == ProducedAt([ArcOut(2, 3, 1)], t, s) + ProducedAt(outs[3..], t, s);
    assert ProducedAt(outs[1..], t, s) == ProducedAt([ArcOut(1, 2, 1)], t, s) + ProducedAt(outs[2..], t, s);
    assert ProducedAt(outs, t, s) == ProducedAt([ArcOut(0, 1, 1)], t, s) + ProducedAt(outs[1..], t, s);
  }

  /** Firing control transition t changes the place in slot s by what the control arcs put there
      minus what they take. */
  lemma ControlFire(n: Net, m: Marking, t: nat)
    requires ControlNet(n, m)
    ensures forall s | 0 <= s < 6 :: Fire(n, m, t)[n.slots[s]] == m[n.slots[s]] - ControlTakes(t, s) + ControlPuts(t, s)
  {
    FireEffect(n, m, t);
    forall s | 0 <= s < 6
      ensures Fire(n, m, t)[n.slots[s]] == m[n.slots[s]] - ControlTakes(t, s) + ControlPuts(t, s)
    {
      ControlConsumed(t, s);
      ControlProduced(t, s);
    }
  }

  // One lemma per phase: with the phase fixed, the arc sums of the firing evaluate to constants.

  lemma FireFromGreen12(n: Net, m: Marking)
    requires ControlNet(n, m) && InPhase(m, n.slots, Green12Phase)
    ensures InPhase(Fire(n, m, 1), n.slots, Yellow1Phase)
  {
    ControlFire(n, m, 1);
  }

  lemma FireFromYellow1(n: Net, m: Marking)
    requires ControlNet(n, m) && InPhase(m, n.slots, Yellow1Phase)
    ensures InPhase(Fire(n, m, 2), n.slots, Green34Phase)
  {
    ControlFire(n, m, 2);
  }

  lemma FireFromGreen34(n: Net, m: Marking)
    requires ControlNet(n, m) && InPhase(m, n.slots, Green34Phase)
    ensures InPhase(Fire(n, m, 3), n.slots, Yellow2Phase)
  {
    ControlFire(n, m, 3);
  }

  lemma FireFromYellow2(n: Net, m: Marking)
    requires ControlNet(n, m) && InPhase(m, n.slots, Yellow2Phase)
    ensures InPhase(Fire(n, m, 0), n.slots, Green12Phase)
  {
    ControlFire(n, m, 0);
  }

  /** Firing the phase's transition moves the control places to the next phase of the cycle and
      leaves every place outside the control net alone. */
  lemma ControlFiresNext(n: Net, m: Marking, p: Phase)
    requires ControlNet(n, m) && InPhase(m, n.slots, p)
    ensures InPhase(Fire(n, m, PhaseTransition(p)), n.slots, NextPhase(p))
    ensures forall id | 0 <= id < |m| && id !in n.slots :: Fire(n, m, PhaseTransition(p))[id] == m[id]
  {
    FireEffect(n, m, PhaseTransition(p));
    match p
    case Green12Phase => FireFromGreen12(n, m);
    case Yellow1Phase => FireFromYellow1(n, m);
    case Green34Phase => FireFromGreen34(n, m);
    case Yellow2Phase => FireFromYellow2(n, m);
  }

  /** The hypotheses every lemma about a firing of a directional net needs. */
  predicate DirectionalNet(n: Net, m: Marking)
  {
    && n.arcIns == DirectionalArcIns && n.arcOuts == DirectionalArcOuts
    && |n.slots| == 4 && |n.transitions| == 2 && Injective(n.slots) && WellFormed(n, |m|)
  }

  /** Arrival needs the source token; crossing needs a waiting car and a token in the guard slot. */
  lemma DirectionalEnabling(n: Net, m: Marking)
    requires DirectionalNet(n, m)
    ensures Enabled(n, m, 0) <==> m[n.slots[0]] >= 1
    ensures Enabled(n, m, 1) <==> m[n.slots[1]] >= 1 && m[n.slots[3]] >= 1
    ensures forall t | t >= 2 :: !Enabled(n, m, t)
  {
    assert DirectionalArcIns[0] in n.arcIns && DirectionalArcIns[1] in n.arcIns && DirectionalArcIns[2] in n.arcIns;
  }

  /** Arrival gives the source its token back and adds one car to the queue. */
  lemma Arrive(n: Net, m: Marking)
    requires DirectionalNet(n, m)
    ensures var m' := Fire(n, m, 0);
      && m'[n.slots[0]] == m[n.slots[0]] && m'[n.slots[1]] == m[n.slots[1]] + 1
      && m'[n.slots[2]] == m[n.slots[2]] && m'[n.slots[3]] == m[n.slots[3]]
      && forall id | 0 <= id < |m| && id !in n.slots :: m'[id] == m[id]
  {
    FireEffect(n, m, 0);
  }

  /** Crossing moves one car from the queue to the departed place; the informational arc leaves the
      guard slot's tokens where they are. */
  lemma Cross(n: Net, m: Marking)
    requires DirectionalNet(n, m)
    ensures var m' := Fire(n, m, 1);
      && m'[n.slots[0]] == m[n.slots[0]] && m'[n.slots[1]] == m[n.slots[1]] - 1
      && m'[n.slots[2]] == m[n.slots[2]] + 1 && m'[n.slots[3]] == m[n.slots[3]]
      && forall id | 0 <= id < |m| && id !in n.slots :: m'[id] == m[id]
  {
    FireEffect(n, m, 1);
  }

  /** What holds of the places of direction d in every reachable marking. */
  predicate DirectionInv(m: Marking, d: nat)
    requires |m| == 22 && d < 4
  {
    m[Source(d)] == 1 && m[Queue(d)] >= 0 && m[Departed(d)] >= 0 && m[Guard(d)] == 0
  }

  /** The invariant of the intersection's token game: the control places are in one of the four
      phases and every direction's places satisfy DirectionInv. */
  predicate Inv(m: Marking)
  {
    && |m| == 22
    && (exists p :: InPhase(m, ControlSlots, p))
    && forall d | 0 <= d < 4 :: DirectionInv(m, d)
  }

  /** The marking the intersection starts from satisfies the invariant. */
  lemma InitialInv(phaseTimes: seq<int>, arrivalTimes: seq<real>, connected: bool)
    requires |phaseTimes| >= 4 && |arrivalTimes| >= 4
    ensures Inv(IntersectionModel(phaseTimes, arrivalTimes, connected).initial)
  {
    InitialMarking(phaseTimes, arrivalTimes, connected);
    InitialArenaPlaces();
  }

  /** Under the invariant each P-invariant of the control net holds: one token circulates among the
      places 1..4 and one between the two green places, so the greens are never marked together. */
  lemma ControlPlaceInvariants(m: Marking)
    requires Inv(m)
    ensures m[1] + m[2] + m[3] + m[4] == 1 && m[Green12] + m[Green34] == 1
    ensures !(m[Green12] >= 1 && m[Green34] >= 1)
  {
    var p :| InPhase(m, ControlSlots, p);
    match p
    case Green12Phase =>
    case Yellow1Phase =>
    case Green34Phase =>
    case Yellow2Phase =>
  }

  /** The number of arrivals in direction d among the steps. */
  function Arrivals(steps: seq<Step>, d: nat): (r: nat)
    ensures r <= |steps|
  {
    if steps == [] then 0 else (if steps[0] == Step(d + 1, 0) then 1 else 0) + Arrivals(steps[1..], d)
  }

  /** The shape of the intersection model that the token-game lemmas rely on. */
  predicate IntersectionShape(md: Model, connected: bool)
  {
    && |md.initial| == 22 && |md.nets| == 5 && ValidModel(md)
    && md.nets[0].slots == ControlSlots && ControlNet(md.nets[0], md.initial)
    && forall d | 0 <= d < 4 ::
         md.nets[d + 1].slots == DirectionSlots(d, connected) && DirectionalNet(md.nets[d + 1], md.initial)
  }

  /** createSimulationModels, followed or not by connectTrafficSubsystems, builds a model of that
      shape. */
  lemma ModelShape(phaseTimes: seq<int>, arrivalTimes: seq<real>, connected: bool)
    requires |phaseTimes| >= 4 && |arrivalTimes| >= 4
    ensures IntersectionShape(IntersectionModel(phaseTimes, arrivalTimes, connected), connected)
  {
    ModelValid(phaseTimes, arrivalTimes, connected);
    ControlNetShape(phaseTimes, arrivalTimes, connected);
    var md := IntersectionModel(phaseTimes, arrivalTimes, connected);
    forall d | 0 <= d < 4
      ensures md.nets[d + 1].slots == DirectionSlots(d, connected) && DirectionalNet(md.nets[d + 1], md.initial)
    {
      DirectionNetShape(phaseTimes, arrivalTimes, connected, d);
    }
    assert md.nets[0].slots == ControlSlots;
    assert ControlNet(md.nets[0], md.initial);
    assert ValidModel(md);
  }

  lemma NotControlPlace(id: PlaceId)
    requires id >= 6
    ensures id !in ControlSlots
  {
  }

  /** Control step: in phase p only the phase's transition is enabled; firing it moves the control
      places to the next phase and leaves every other place alone. */
  lemma ControlStep(md: Model, connected: bool, m: Marking, p: Phase, t: nat)
    requires IntersectionShape(md, connected) && Inv(m) && InPhase(m, ControlSlots, p)
    ensures CanFire(md, m, Step(0, t)) <==> t == PhaseTransition(p)
    ensures CanFire(md, m, Step(0, t)) ==>
      var m' := Fire(md.nets[0], m, t);
      && Inv(m') && InPhase(m', ControlSlots, NextPhase(p))
      && forall id | 6 <= id < 22 :: m'[id] == m[id]
  {
    var n := md.nets[0];
    ControlEnablesOne(n, m, p, t);
    if t == PhaseTransition(p) {
      ControlFiresNext(n, m, p);
      var m' := Fire(n, m, t);
      forall id | 6 <= id < 22
        ensures m'[id] == m[id]
      {
        assert id !in ControlSlots by { NotControlPlace(id); }
      }
      DirectionsKept(m, m');
    }
  }

  /** A step that leaves the places of every direction alone keeps DirectionInv. */
  lemma DirectionsKept(m: Marking, m': Marking)
    requires |m| == 22 && |m'| == 22 && forall d | 0 <= d < 4 :: DirectionInv(m, d)
    requires forall id | 6 <= id < 22 :: m'[id] == m[id]
    ensures forall d | 0 <= d < 4 :: DirectionInv(m', d)
  {
    forall d | 0 <= d < 4
      ensures DirectionInv(m', d)
    {
      assert DirectionInv(m, d);
    }
  }

  lemma NotDirectionPlace(id: PlaceId, d: nat, connected: bool)
    requires d < 4 && id != Source(d) && id != Queue(d) && id != Departed(d)
    requires id != (if connected then GreenOf(d) else Guard(d))
    ensures id !in DirectionSlots(d, connected)
  {
  }

  /** Direction step, enabling: arrival is always enabled, since the source keeps its token;
      crossing needs a waiting car and a token in the guard slot. */
  lemma DirectionEnabled(md: Model, connected: bool, m: Marking, d: nat, t: nat)
    requires IntersectionShape(md, connected) && Inv(m) && d < 4
    ensures CanFire(md, m, Step(d + 1, t)) <==>
      t == 0 || (t == 1 && m[Queue(d)] >= 1 && m[if connected then GreenOf(d) else Guard(d)] >= 1)
  {
    var n := md.nets[d + 1];
    assert n.slots == DirectionSlots(d, connected) && DirectionalNet(n, md.initial);
    assert DirectionInv(m, d);
    DirectionalEnabling(n, m);
  }

  /** Direction step, arrival: one more car waits in direction d and no other place changes. */
  lemma DirectionArrival(md: Model, connected: bool, m: Marking, d: nat)
    requires IntersectionShape(md, connected) && |m| == 22 && d < 4
    ensures Fire(md.nets[d + 1], m, 0) == m[Queue(d) := m[Queue(d)] + 1]
  {
    var n := md.nets[d + 1];
    assert n.slots == DirectionSlots(d, connected) && DirectionalNet(n, md.initial);
    var m' := Fire(n, m, 0);
    var target := m[Queue(d) := m[Queue(d)] + 1];
    Arrive(n, m);
    forall id | 0 <= id < 22
      ensures m'[id] == target[id]
    {
      if id != Queue(d) && id != Source(d) && id != Departed(d) && id != n.slots[3] {
        NotDirectionPlace(id, d, connected);
      }
    }
    assert m' == target;
  }

  /** Direction step, crossing: one car of direction d moves from the queue to the departed place
      and no other place changes; the guard's token stays. */
  lemma DirectionCrossing(md: Model, connected: bool, m: Marking, d: nat)
    requires IntersectionShape(md, connected) && |m| == 22 && d < 4
    ensures Fire(md.nets[d + 1], m, 1) == m[Queue(d) := m[Queue(d)] - 1][Departed(d) := m[Departed(d)] + 1]
  {
    var n := md.nets[d + 1];
    assert n.slots == DirectionSlots(d, connected) && DirectionalNet(n, md.initial);
    var m' := Fire(n, m, 1);
    var target := m[Queue(d) := m[Queue(d)] - 1][Departed(d) := m[Departed(d)] + 1];
    Cross(n, m);
    forall id | 0 <= id < 22
      ensures m'[id] == target[id]
    {
      if id != Queue(d) && id != Departed(d) && id != Source(d) && id != n.slots[3] {
        NotDirectionPlace(id, d, connected);
      }
    }
    assert m' == target;
  }

  /** A car arriving in direction d, or one crossing when a car is waiting, keeps the invariant,
      the control places and the other directions' places. */
  lemma QueueMoveInv(m: Marking, d: nat, arrival: bool)
    requires Inv(m) && d < 4 && (arrival || m[Queue(d)] >= 1)
    ensures var m' := if arrival then m[Queue(d) := m[Queue(d)] + 1]
                      else m[Queue(d) := m[Queue(d)] - 1][Departed(d) := m[Departed(d)] + 1];
      && Inv(m')
      && (forall id | 0 <= id < 6 :: m'[id] == m[id])
      && forall e | 0 <= e < 4 && e != d :: m'[Queue(e)] == m[Queue(e)] && m'[Departed(e)] == m[Departed(e)]
  {
    var m' := if arrival then m[Queue(d) := m[Queue(d)] + 1]
              else m[Queue(d) := m[Queue(d)] - 1][Departed(d) := m[Departed(d)] + 1];
    var p :| InPhase(m, ControlSlots, p);
    assert InPhase(m', ControlSlots, p);
    forall e | 0 <= e < 4
      ensures DirectionInv(m', e)
    {
      assert DirectionInv(m, e);
    }
  }

  /** A direction step keeps the invariant and the control places, adds one car to the waiting
      plus departed cars of d on arrival, never takes a car from the departed place, and touches
      no other direction. */
  lemma DirectionStepInv(md: Model, connected: bool, m: Marking, d: nat, t: nat)
    requires IntersectionShape(md, connected) && Inv(m) && d < 4 && CanFire(md, m, Step(d + 1, t))
    ensures var m' := Fire(md.nets[d + 1], m, t);
      && Inv(m')
      && (forall id | 0 <= id < 6 :: m'[id] == m[id])
      && m'[Queue(d)] + m'[Departed(d)] == m[Queue(d)] + m[Departed(d)] + (if t == 0 then 1 else 0)
      && m[Departed(d)] <= m'[Departed(d)] && (t == 0 ==> m'[Departed(d)] == m[Departed(d)])
      && forall e | 0 <= e < 4 && e != d :: m'[Queue(e)] == m[Queue(e)] && m'[Departed(e)] == m[Departed(e)]
  {
    DirectionEnabled(md, connected, m, d, t);
    if t == 0 {
      DirectionArrival(md, connected, m, d);
    } else {
      DirectionCrossing(md, connected, m, d);
    }
    QueueMoveInv(m, d, t == 0);
  }

  /** One step of any net keeps the invariant; it adds one car to the waiting plus departed cars
      of d when it is an arrival of d and none otherwise, never takes a departed car away, and
      without the wiring never makes one depart. */
  lemma StepInv(md: Model, connected: bool, m: Marking, st: Step)
    requires IntersectionShape(md, connected) && Inv(m) && CanFire(md, m, st)
    ensures var m' := Fire(md.nets[st.net], m, st.transition);
      Inv(m') && CarCounts(m, m', st, connected)
  {
    if st.net == 0 {
      ControlStepCounts(md, connected, m, st.transition);
    } else {
      DirectionStepCounts(md, connected, m, st.net - 1, st.transition);
    }
  }

  /** Across one step from m to m': in every direction the waiting plus departed cars grow by one
      when the step is that direction's arrival and by none otherwise, the departed cars never
      decrease, and without the wiring they stay as they are. */
  predicate CarCounts(m: Marking, m': Marking, st: Step, connected: bool)
    requires |m| == 22 && |m'| == 22
  {
    forall d | 0 <= d < 4 ::
      && m'[Queue(d)] + m'[Departed(d)] == m[Queue(d)] + m[Departed(d)] + (if st == Step(d + 1, 0) then 1 else 0)
      && m[Departed(d)] <= m'[Departed(d)]
      && (!connected ==> m'[Departed(d)] == m[Departed(d)])
  }

  /** A control step keeps the invariant and leaves every direction's cars where they are. */
  lemma ControlStepCounts(md: Model, connected: bool, m: Marking, t: nat)
    requires IntersectionShape(md, connected) && Inv(m) && CanFire(md, m, Step(0, t))
    ensures var m' := Fire(md.nets[0], m, t);
      Inv(m') && CarCounts(m, m', Step(0, t), connected)
  {
    var p :| InPhase(m, ControlSlots, p);
    ControlStep(md, connected, m, p, t);
    var m' := Fire(md.nets[0], m, t);
    forall d | 0 <= d < 4
      ensures m'[Queue(d)] == m[Queue(d)] && m'[Departed(d)] == m[Departed(d)]
    {
    }
  }

  /** A step of direction d keeps the invariant and changes the cars as CarCounts says. */
  lemma DirectionStepCounts(md: Model, connected: bool, m: Marking, d: nat, t: nat)
    requires IntersectionShape(md, connected) && Inv(m) && d < 4 && CanFire(md, m, Step(d + 1, t))
    ensures var m' := Fire(md.nets[d + 1], m, t);
      Inv(m') && CarCounts(m, m', Step(d + 1, t), connected)
  {
    var m' := Fire(md.nets[d + 1], m, t);
    DirectionStepInv(md, connected, m, d, t);
    if !connected {
      UnwiredNoCrossing(md, m, d);
      DirectionEnabled(md, connected, m, d, t);
    }
    forall e | 0 <= e < 4
      ensures m'[Queue(e)] + m'[Departed(e)] == m[Queue(e)] + m[Departed(e)] + (if Step(d + 1, t) == Step(e + 1, 0) then 1 else 0)
      ensures m[Departed(e)] <= m'[Departed(e)]
      ensures !connected ==> m'[Departed(e)] == m[Departed(e)]
    {
    }
  }

  /** Along any run from a marking that satisfies the invariant, the invariant holds at the end; in
      every direction the waiting plus departed cars grow by exactly the number of arrivals, the
      departed cars never decrease, and without the wiring no car ever departs. */
  lemma {:induction false} RunInv(md: Model, connected: bool, m: Marking, steps: seq<Step>)
    requires IntersectionShape(md, connected) && Inv(m)
    ensures Run(md, m, steps).Some? ==>
      var m' := Run(md, m, steps).value;
      && Inv(m')
      && forall d | 0 <= d < 4 ::
        && m'[Queue(d)] + m'[Departed(d)] == m[Queue(d)] + m[Departed(d)] + Arrivals(steps, d)
        && m[Departed(d)] <= m'[Departed(d)]
        && (!connected ==> m'[Departed(d)] == m[Departed(d)])
    decreases steps
  {
    if steps != [] && CanFire(md, m, steps[0]) {
      var st := steps[0];
      StepInv(md, connected, m, st);
      RunInv(md, connected, Fire(md.nets[st.net], m, st.transition), steps[1..]);
    }
  }

  /** The crossing transition of direction d may fire. */
  predicate CanCross(md: Model, m: Marking, d: nat)
    requires ValidModel(md) && |m| == |md.initial|
  {
    CanFire(md, m, Step(d + 1, 1))
  }

  /** With the wiring, a crossing of direction d needs a waiting car and a token in the green place
      that serves d. */
  lemma CrossingNeedsGreen(md: Model, m: Marking, d: nat)
    requires IntersectionShape(md, true) && Inv(m) && d < 4
    ensures CanCross(md, m, d) <==> m[Queue(d)] >= 1 && m[GreenOf(d)] >= 1
  {
    DirectionEnabled(md, true, m, d, 1);
  }

  /** With the wiring, no crossing of direction 0 or 1 is enabled together with one of direction
      2 or 3. */
  lemma NoConflictingCrossings(md: Model, m: Marking, d: nat, e: nat)
    requires IntersectionShape(md, true) && Inv(m) && d < 2 <= e < 4
    ensures !(CanCross(md, m, d) && CanCross(md, m, e))
  {
    CrossingNeedsGreen(md, m, d);
    CrossingNeedsGreen(md, m, e);
    ControlPlaceInvariants(m);
  }

  /** Without the wiring the crossing transitions test guard places that never get a token, so no
      crossing is ever enabled. */
  lemma UnwiredNoCrossing(md: Model, m: Marking, d: nat)
    requires IntersectionShape(md, false) && Inv(m) && d < 4
    ensures !CanCross(md, m, d)
  {
    DirectionEnabled(md, false, m, d, 1);
    assert DirectionInv(m, d);
  }

  /** The four firings of one signal cycle. */
  const Cycle: seq<Step> := [Step(0, 1), Step(0, 2), Step(0, 3), Step(0, 0)]

  /** From the first phase, the control net fires T1, T2, T3, T0 and is back where it started: the
      whole marking is unchanged. */
  lemma ControlCycle(md: Model, connected: bool, m: Marking)
    requires IntersectionShape(md, connected) && Inv(m) && InPhase(m, ControlSlots, Green12Phase)
    ensures Run(md, m, Cycle) == Some(m)
  {
    ControlRun(md, connected, m, Green12Phase, 4);
    CycleSteps();
    SamePlaces(Run(md, m, Cycle).value, m, Green12Phase);
  }

  /** Four phases from the first one are the firings of Cycle and lead back to the first phase. */
  lemma CycleSteps()
    ensures PhaseSteps(Green12Phase, 4) == Cycle && Advance(Green12Phase, 4) == Green12Phase
  {
    assert PhaseSteps(Yellow2Phase, 1) == [Step(0, 0)];
    assert PhaseSteps(Green34Phase, 2) == [Step(0, 3), Step(0, 0)];
    assert PhaseSteps(Yellow1Phase, 3) == [Step(0, 2), Step(0, 3), Step(0, 0)];
  }

  /** The phase k phases after p. */
  function Advance(p: Phase, k: nat): Phase
    decreases k
  {
    if k == 0 then p else Advance(NextPhase(p), k - 1)
  }

  /** The control firings of k consecutive phases, starting in phase p. */
  function PhaseSteps(p: Phase, k: nat): (r: seq<Step>)
    ensures |r| == k
    decreases k
  {
    if k == 0 then [] else [Step(0, PhaseTransition(p))] + PhaseSteps(NextPhase(p), k - 1)
  }

  /** From phase p the control net can fire through k phases; it ends in the phase k phases on,
      keeps the invariant and leaves every place outside the control net alone. */
  lemma {:induction false} ControlRun(md: Model, connected: bool, m: Marking, p: Phase, k: nat)
    requires IntersectionShape(md, connected) && Inv(m) && InPhase(m, ControlSlots, p)
    ensures Run(md, m, PhaseSteps(p, k)).Some?
    ensures var m' := Run(md, m, PhaseSteps(p, k)).value;
      && Inv(m') && InPhase(m', ControlSlots, Advance(p, k))
      && forall id | 6 <= id < 22 :: m'[id] == m[id]
    decreases k
  {
    if k > 0 {
      ControlStep(md, connected, m, p, PhaseTransition(p));
      var m1 := Fire(md.nets[0], m, PhaseTransition(p));
      ControlRun(md, connected, m1, NextPhase(p), k - 1);
      RunFirst(md, m, PhaseSteps(p, k));
    }
  }

  /** Running steps fires the first one, then runs the rest. */
  lemma RunFirst(md: Model, m: Marking, steps: seq<Step>)
    requires ValidModel(md) && |m| == |md.initial| && steps != [] && CanFire(md, m, steps[0])
    ensures Run(md, m, steps) == Run(md, Fire(md.nets[steps[0].net], m, steps[0].transition), steps[1..])
  {
  }

  /** Two markings of the arena that show the same phase and agree outside the control places are
      equal. */
  lemma SamePlaces(m: Marking, m': Marking, p: Phase)
    requires |m| == |m'| == 22 && InPhase(m, ControlSlots, p) && InPhase(m', ControlSlots, p)
    requires forall id | 6 <= id < 22 :: m[id] == m'[id]
    ensures m == m'
  {
    forall id | 0 <= id < 22
      ensures m[id] == m'[id]
    {
      if id < 6 {
        assert ControlSlots[id] == id;
      }
    }
  }

  /** The phase the control places show, read off the token in places 1..4. */
  function ControlPhaseOf(m: Marking): (p: Phase)
    requires |m| >= 6
    ensures InPhase(m, ControlSlots, Green12Phase) ==> p == Green12Phase
    ensures InPhase(m, ControlSlots, Yellow1Phase) ==> p == Yellow1Phase
    ensures InPhase(m, ControlSlots, Green34Phase) ==> p == Green34Phase
    ensures InPhase(m, ControlSlots, Yellow2Phase) ==> p == Yellow2Phase
  {
    if m[1] >= 1 then Green12Phase
    else if m[2] >= 1 then Yellow1Phase
    else if m[3] >= 1 then Green34Phase
    else Yellow2Phase
  }

  /** In every marking that satisfies the invariant exactly one control transition is enabled: the
      one of the phase the control places show. */
  lemma ExactlyOneControlTransition(md: Model, connected: bool, m: Marking, t: nat)
    requires IntersectionShape(md, connected) && Inv(m)
    ensures CanFire(md, m, Step(0, t)) <==> t == PhaseTransition(ControlPhaseOf(m))
  {
    var p :| InPhase(m, ControlSlots, p);
    ControlEnablesOne(md.nets[0], m, p, t);
  }

  /** Safety of the connected intersection, as goStats builds it: in every reachable marking the two
      green places are never marked together, exactly one control transition is enabled, the cars
      waiting or departed in each direction are exactly its arrivals, and no crossing of
      directions 0 or 1 is enabled together with one of directions 2 or 3. */
  lemma WiredRun(phaseTimes: seq<int>, arrivalTimes: seq<real>, steps: seq<Step>)
    requires |phaseTimes| >= 4 && |arrivalTimes| >= 4
    ensures var md := IntersectionModel(phaseTimes, arrivalTimes, true);
      ValidModel(md) && (Run(md, md.initial, steps).Some? ==>
        var m := Run(md, md.initial, steps).value;
        && Inv(m)
        && !(m[Green12] >= 1 && m[Green34] >= 1)
        && (forall t: nat :: CanFire(md, m, Step(0, t)) <==> t == PhaseTransition(ControlPhaseOf(m)))
        && (forall d | 0 <= d < 4 :: m[Queue(d)] + m[Departed(d)] == Arrivals(steps, d))
        && (forall d: nat, e: nat | d < 2 <= e < 4 :: !(CanCross(md, m, d) && CanCross(md, m, e))))
  {
    var md := IntersectionModel(phaseTimes, arrivalTimes, true);
    ModelShape(phaseTimes, arrivalTimes, true);
    InitialInv(phaseTimes, arrivalTimes, true);
    InitialMarking(phaseTimes, arrivalTimes, true);
    InitialArenaPlaces();
    RunInv(md, true, md.initial, steps);
    if Run(md, md.initial, steps).Some? {
      var m := Run(md, md.initial, steps).value;
      ControlPlaceInvariants(m);
      forall t: nat
        ensures CanFire(md, m, Step(0, t)) <==> t == PhaseTransition(ControlPhaseOf(m))
      {
        ExactlyOneControlTransition(md, true, m, t);
      }
      forall d: nat, e: nat | d < 2 <= e < 4
        ensures !(CanCross(md, m, d) && CanCross(md, m, e))
      {
        NoConflictingCrossings(md, m, d, e);
      }
    }
  }

  /** The intersection as the TrafficLightIndividual evaluator builds it, never connected: in every
      reachable marking no crossing is enabled, no car has departed, and every car that arrived is
      still waiting. */
  lemma UnwiredRun(phaseTimes: seq<int>, arrivalTimes: seq<real>, steps: seq<Step>)
    requires |phaseTimes| >= 4 && |arrivalTimes| >= 4
    ensures var md := IntersectionModel(phaseTimes, arrivalTimes, false);
      ValidModel(md) && (Run(md, md.initial, steps).Some? ==>
        var m := Run(md, md.initial, steps).value;
        forall d | 0 <= d < 4 ::
          && !CanCross(md, m, d)
          && m[Departed(d)] == 0 && m[Queue(d)] == Arrivals(steps, d))
  {
    var md := IntersectionModel(phaseTimes, arrivalTimes, false);
    ModelShape(phaseTimes, arrivalTimes, false);
    InitialInv(phaseTimes, arrivalTimes, false);
    InitialMarking(phaseTimes, arrivalTimes, false);
    InitialArenaPlaces();
    RunInv(md, false, md.initial, steps);
    if Run(md, md.initial, steps).Some? {
      var m := Run(md, md.initial, steps).value;
      forall d | 0 <= d < 4
        ensures !CanCross(md, m, d)
      {
        UnwiredNoCrossing(md, m, d);
      }
    }
  }
}
