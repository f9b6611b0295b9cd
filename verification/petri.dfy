/** The untimed token game of the PetriObj nets that the intersection is built from.

    Places live in one arena and are addressed by integer ids; a net stores, slot by slot, the ids
    of the places it works on, and its arcs refer to slots, not to places. Overwriting a slot
    therefore makes the arcs that refer to it act on another place, which is how the directional
    nets come to consult the control net's "green" places. Time, delays and the kernel's event
    scheduling are not modelled here: only when a transition may fire and what firing does. */
module Petri {
  import opened Common

  type PlaceId = nat

  /** Token count of every arena place, indexed by place id. */
  type Marking = seq<int>

  datatype Distribution = Deterministic | Exponential

  /** A transition with its mean service time and the law it is drawn from. */
  datatype Transition = Transition(delay: real, distribution: Distribution)

  /** Input arc from the place in slot `place` to transition number `transition`. An informational
      arc only checks that the place holds `weight` tokens and takes none of them. */
  datatype ArcIn = ArcIn(place: nat, transition: nat, weight: nat, informational: bool)

  /** Output arc from transition number `transition` to the place in slot `place`. */
  datatype ArcOut = ArcOut(transition: nat, place: nat, weight: nat)

  datatype Net = Net(slots: seq<PlaceId>, transitions: seq<Transition>, arcIns: seq<ArcIn>, arcOuts: seq<ArcOut>)

  /** Every slot names an arena place and every arc names an existing slot and transition. */
  predicate WellFormed(n: Net, arena: nat)
  {
    && (forall s | 0 <= s < |n.slots| :: n.slots[s] < arena)
    && (forall a | a in n.arcIns :: a.place < |n.slots| && a.transition < |n.transitions|)
    && (forall a | a in n.arcOuts :: a.place < |n.slots| && a.transition < |n.transitions|)
  }

  /** No two slots of the net name the same place. */
  predicate Injective(slots: seq<PlaceId>)
  {
    forall i, j | 0 <= i < j < |slots| :: slots[i] != slots[j]
  }

  /** The standard enabling rule: every input arc of t, informational or not, finds at least its
      weight in tokens. */
  predicate Enabled(n: Net, m: Marking, t: nat)
    requires WellFormed(n, |m|)
  {
    && t < |n.transitions|
    && forall a | a in n.arcIns && a.transition == t :: m[n.slots[a.place]] >= a.weight
  }

  /** The marking after the consuming input arcs of t have taken their tokens, arc by arc. */
  function TakeInputs(slots: seq<PlaceId>, arcs: seq<ArcIn>, t: nat, m: Marking): (r: Marking)
    requires forall a | a in arcs :: a.place < |slots| && slots[a.place] < |m|
    ensures |r| == |m|
  {
    if arcs == [] then m
    else
      var a := arcs[0];
      var m' := if a.transition == t && !a.informational then m[slots[a.place] := m[slots[a.place]] - a.weight] else m;
      TakeInputs(slots, arcs[1..], t, m')
  }

  /** The marking after the output arcs of t have put their tokens, arc by arc. */
  function PutOutputs(slots: seq<PlaceId>, arcs: seq<ArcOut>, t: nat, m: Marking): (r: Marking)
    requires forall a | a in arcs :: a.place < |slots| && slots[a.place] < |m|
    ensures |r| == |m|
  {
    if arcs == [] then m
    else
      var a := arcs[0];
      var m' := if a.transition == t then m[slots[a.place] := m[slots[a.place]] + a.weight] else m;
      PutOutputs(slots, arcs[1..], t, m')
  }

  /** Firing t: first the input arcs act, then the output arcs. */
  function Fire(n: Net, m: Marking, t: nat): (r: Marking)
    requires WellFormed(n, |m|)
    ensures |r| == |m|
  {
    PutOutputs(n.slots, n.arcOuts, t, TakeInputs(n.slots, n.arcIns, t, m))
  }

  /** Tokens that the consuming input arcs of t take from slot s. */
  function ConsumedAt(arcs: seq<ArcIn>, t: nat, s: nat): nat
  {
    if arcs == [] then 0
    else (if arcs[0].transition == t && arcs[0].place == s && !arcs[0].informational then arcs[0].weight else 0)
         + ConsumedAt(arcs[1..], t, s)
  }

  /** Tokens that the output arcs of t put into slot s. */
  function ProducedAt(arcs: seq<ArcOut>, t: nat, s: nat): nat
  {
    if arcs == [] then 0
    else (if arcs[0].transition == t && arcs[0].place == s then arcs[0].weight else 0)
         + ProducedAt(arcs[1..], t, s)
  }

  lemma {:induction false} TakeInputsEffect(slots: seq<PlaceId>, arcs: seq<ArcIn>, t: nat, m: Marking)
    requires forall a | a in arcs :: a.place < |slots| && slots[a.place] < |m|
    requires Injective(slots)
    ensures forall s | 0 <= s < |slots| && slots[s] < |m| ::
      TakeInputs(slots, arcs, t, m)[slots[s]] == m[slots[s]] - ConsumedAt(arcs, t, s)
    ensures forall id | 0 <= id < |m| && id !in slots :: TakeInputs(slots, arcs, t, m)[id] == m[id]
  {
    if arcs != [] {
      var a := arcs[0];
      var m' := if a.transition == t && !a.informational then m[slots[a.place] := m[slots[a.place]] - a.weight] else m;
      TakeInputsEffect(slots, arcs[1..], t, m');
    }
  }

  lemma {:induction false} PutOutputsEffect(slots: seq<PlaceId>, arcs: seq<ArcOut>, t: nat, m: Marking)
    requires forall a | a in arcs :: a.place < |slots| && slots[a.place] < |m|
    requires Injective(slots)
    ensures forall s | 0 <= s < |slots| && slots[s] < |m| ::
      PutOutputs(slots, arcs, t, m)[slots[s]] == m[slots[s]] + ProducedAt(arcs, t, s)
    ensures forall id | 0 <= id < |m| && id !in slots :: PutOutputs(slots, arcs, t, m)[id] == m[id]
  {
    if arcs != [] {
      var a := arcs[0];
      var m' := if a.transition == t then m[slots[a.place] := m[slots[a.place]] + a.weight] else m;
      PutOutputsEffect(slots, arcs[1..], t, m');
    }
  }

  /** For a net whose slots name distinct places, firing t changes the place in slot s by exactly
      what the output arcs put there minus what the consuming input arcs take, and leaves every
      place outside the net alone. */
  lemma FireEffect(n: Net, m: Marking, t: nat)
    requires WellFormed(n, |m|) && Injective(n.slots)
    ensures forall s | 0 <= s < |n.slots| ::
      Fire(n, m, t)[n.slots[s]] == m[n.slots[s]] - ConsumedAt(n.arcIns, t, s) + ProducedAt(n.arcOuts, t, s)
    ensures forall id | 0 <= id < |m| && id !in n.slots :: Fire(n, m, t)[id] == m[id]
  {
    var mid := TakeInputs(n.slots, n.arcIns, t, m);
    TakeInputsEffect(n.slots, n.arcIns, t, m);
    PutOutputsEffect(n.slots, n.arcOuts, t, mid);
  }

  /** The list of nets handed to the kernel together with the arena's initial marking. */
  datatype Model = Model(initial: Marking, nets: seq<Net>)

  predicate ValidModel(md: Model)
  {
    forall k | 0 <= k < |md.nets| :: WellFormed(md.nets[k], |md.initial|)
  }

  /** One firing: transition `transition` of net number `net`. */
  datatype Step = Step(net: nat, transition: nat)

  predicate CanFire(md: Model, m: Marking, st: Step)
    requires ValidModel(md) && |m| == |md.initial|
  {
    st.net < |md.nets| && Enabled(md.nets[st.net], m, st.transition)
  }

  /** Fires the steps in order from m; None as soon as a step is not enabled. */
  function Run(md: Model, m: Marking, steps: seq<Step>): (r: Option<Marking>)
    requires ValidModel(md) && |m| == |md.initial|
    ensures r.Some? ==> |r.value| == |m|
    decreases steps
  {
    if steps == [] then Some(m)
    else if CanFire(md, m, steps[0]) then Run(md, Fire(md.nets[steps[0].net], m, steps[0].transition), steps[1..])
    else None
  }

  /** The token counts of the places in the given slots. */
  function Project(m: Marking, slots: seq<PlaceId>): (r: seq<int>)
    requires forall s | 0 <= s < |slots| :: slots[s] < |m|
    ensures |r| == |slots| && forall s | 0 <= s < |slots| :: r[s] == m[slots[s]]
  {
    seq(|slots|, s requires 0 <= s < |slots| => m[slots[s]])
  }
}
