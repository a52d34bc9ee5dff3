/** The single-agent valve search of src/day16.rs: the search state with a 64-bit
    open set, `create_useful_valves_mask` and the memoised `solve`, 30 steps from
    time 1. */
module Day16 {
  import opened Wrappers
  import opened Bits64
  import opened ValveGraph
  import VS = ValveState

  /** `solve` stops at time 31. */
  const Horizon: nat := 31

  /** Ids with a bit in the open set. */
  const BitBound: nat := 64

  datatype State = State(time: nat, releasedPressure: nat, currentValve: ValveId, openValves: BitVec64)

  /** A graph the search can run on: well formed, and every valve has a bit, since
      `flow_rate` asks the open set about every id of the map. */
  predicate SearchGraph(valves: Valves)
  {
    WellFormed(valves) && forall id :: id in valves ==> id < BitBound
  }

  /** `State::create_initial`: time 1, nothing released, nothing open. */
  function CreateInitial(currentValve: ValveId): (s: State)
    ensures s.time == 1 && s.releasedPressure == 0 && s.currentValve == currentValve
    ensures forall i :: 0 <= i < BitBound ==> !Get(s.openValves, i)
  {
    State(1, 0, currentValve, New())
  }

  /** `State::is_valve_open`. */
  function IsValveOpen(s: State, id: ValveId): bool
    requires id < BitBound
  {
    Get(s.openValves, id)
  }

  /** Flow of the valve `id` if it belongs to `ids` and is open. */
  function Contribution(s: State, valves: Valves, ids: set<ValveId>, id: ValveId): nat
    requires id < BitBound
  {
    if id in ids && id in valves && IsValveOpen(s, id) then valves[id].flowRate else 0
  }

  /** Sum of `Contribution` over the ids below n. */
  function FlowSum(s: State, valves: Valves, ids: set<ValveId>, n: nat): nat
    requires n <= BitBound
  {
    if n == 0 then 0 else FlowSum(s, valves, ids, n - 1) + Contribution(s, valves, ids, n - 1)
  }

  /** The value `State::flow_rate` computes: total flow of the open valves. */
  function FlowRate(s: State, valves: Valves): nat
  {
    FlowSum(s, valves, valves.Keys, BitBound)
  }

  lemma {:induction false} FlowSumAdd(s: State, valves: Valves, ids: set<ValveId>, n: nat, id: ValveId)
    requires n <= BitBound && id < BitBound && id !in ids
    ensures FlowSum(s, valves, ids + {id}, n)
         == FlowSum(s, valves, ids, n) + (if id < n then Contribution(s, valves, {id}, id) else 0)
  {
    if n > 0 {
      FlowSumAdd(s, valves, ids, n - 1, id);
    }
  }

  lemma {:induction false} FlowSumEmpty(s: State, valves: Valves, n: nat)
    requires n <= BitBound
    ensures FlowSum(s, valves, {}, n) == 0
  {
    if n > 0 {
      FlowSumEmpty(s, valves, n - 1);
    }
  }

  /** With no bit set nothing flows. */
  lemma {:induction false} NothingOpenNoFlow(s: State, valves: Valves, n: nat)
    requires n <= BitBound
    requires forall i :: 0 <= i < BitBound ==> !Get(s.openValves, i)
    ensures FlowSum(s, valves, valves.Keys, n) == 0
  {
    if n > 0 {
      NothingOpenNoFlow(s, valves, n - 1);
    }
  }

  /** `State::flow_rate`: a loop over the map's entries adding each open valve's flow. */
  method ComputeFlowRate(s: State, valves: Valves) returns (flowRate: nat)
    requires SearchGraph(valves)
    ensures flowRate == FlowRate(s, valves)
  {
    flowRate := 0;
    var rest := valves.Keys;
    FlowSumEmpty(s, valves, BitBound);
    assert valves.Keys - rest == {};
    while rest != {}
      invariant rest <= valves.Keys
      invariant flowRate == FlowSum(s, valves, valves.Keys - rest, BitBound)
      decreases |rest|
    {
      var id :| id in rest;
      FlowSumAdd(s, valves, valves.Keys - rest, BitBound, id);
      assert valves.Keys - rest + {id} == valves.Keys - (rest - {id});
      if IsValveOpen(s, id) {
        flowRate := flowRate + valves[id].flowRate;
      }
      rest := rest - {id};
    }
    assert valves.Keys - rest == valves.Keys;
  }

  /** `State::perform_action`: adds the flow of the valves open before the step;
      `Open` sets the bit of the current valve, `Move` only changes the current
      valve; the time advances by one. */
  function PerformAction(s: State, action: VS.Action, valves: Valves): (r: State)
    requires action.Open? ==> s.currentValve < BitBound
    ensures r.time == s.time + 1
    ensures r.releasedPressure == s.releasedPressure + FlowRate(s, valves)
    ensures r.currentValve == if action.Move? then action.target else s.currentValve
    ensures action.Move? ==> r.openValves == s.openValves
    ensures forall i :: 0 <= i < BitBound ==>
              Get(r.openValves, i) == (Get(s.openValves, i) || (action.Open? && i == s.currentValve))
  {
    var moved :=
      match action
      case Move(id) => s.(currentValve := id)
      case Open => s.(openValves := Set(s.openValves, s.currentValve, true));
    moved.(releasedPressure := s.releasedPressure + FlowRate(s, valves), time := s.time + 1)
  }

  /** Actions offered at the current valve: `Open` first, only for a closed
      positive-flow valve, then one `Move` per tunnel in tunnel order. */
  function Actions(valves: Valves, s: State): (r: seq<VS.Action>)
    requires s.currentValve in valves && s.currentValve < BitBound
    ensures VS.Open in r <==> valves[s.currentValve].flowRate > 0 && !IsValveOpen(s, s.currentValve)
    ensures forall t :: VS.Move(t) in r <==> t in valves[s.currentValve].tunnels
    ensures |r| >= |valves[s.currentValve].tunnels|
  {
    var at := s.currentValve;
    var opens := if valves[at].flowRate > 0 && !IsValveOpen(s, at) then [VS.Open] else [];
    var r := opens + VS.Moves(valves[at].tunnels);
    assert forall t :: VS.Move(t) in r ==> VS.Move(t) in VS.Moves(valves[at].tunnels);
    r
  }

  /** The `ArrayVec` of actions built by pushes in `solve`. */
  method CollectActions(valves: Valves, s: State) returns (actions: seq<VS.Action>)
    requires s.currentValve in valves && s.currentValve < BitBound
    ensures actions == Actions(valves, s)
  {
    actions := [];
    var currentValve := valves[s.currentValve];
    if currentValve.flowRate > 0 && !IsValveOpen(s, s.currentValve) {
      actions := actions + [VS.Open];
    }
    ghost var opens := actions;
    for j := 0 to |currentValve.tunnels|
      invariant actions == opens + VS.Moves(currentValve.tunnels[..j])
    {
      actions := actions + [VS.Move(currentValve.tunnels[j])];
    }
    assert currentValve.tunnels[..|currentValve.tunnels|] == currentValve.tunnels;
  }

  /** A legal action keeps the agent on a valve of the graph, and `Open` is only
      offered on a closed positive-flow valve. */
  lemma ActionsStayInGraph(valves: Valves, s: State, a: VS.Action)
    requires SearchGraph(valves) && s.currentValve in valves && a in Actions(valves, s)
    ensures a.Move? ==> a.target in valves
    ensures a.Open? ==> valves[s.currentValve].flowRate > 0 && !IsValveOpen(s, s.currentValve)
  {
    if a.Move? {
      assert VS.Move(a.target) in Actions(valves, s);
    }
  }

  /** Bit i of `mask` is set iff the valve with id i exists and has positive flow. */
  predicate UsefulMask(valves: Valves, mask: BitVec64)
  {
    forall i :: 0 <= i < BitBound ==> (Get(mask, i) <==> i in valves && valves[i].flowRate > 0)
  }

  /** `create_useful_valves_mask`: one pass over the valves setting the bit of each
      positive-flow valve (whose id must have a bit). */
  method CreateUsefulValvesMask(valves: Valves) returns (mask: BitVec64)
    requires forall id :: id in valves && valves[id].flowRate > 0 ==> id < BitBound
    ensures UsefulMask(valves, mask)
    ensures (forall id :: id in valves ==> valves[id].flowRate == 0) ==> mask == New()
  {
    mask := New();
    var rest := valves.Keys;
    while rest != {}
      invariant rest <= valves.Keys
      invariant forall i :: 0 <= i < BitBound ==>
                  (Get(mask, i) <==> i in valves.Keys - rest && valves[i].flowRate > 0)
      invariant (forall id :: id in valves ==> valves[id].flowRate == 0) ==> mask == New()
      decreases |rest|
    {
      var id :| id in rest;
      if valves[id].flowRate > 0 {
        mask := Set(mask, id, true);
      }
      rest := rest - {id};
    }
  }

  predicate ValidState(valves: Valves, s: State)
  {
    s.time <= Horizon && s.currentValve in valves
  }

  /** The state after the agent takes `a`. */
  function Successor(valves: Valves, s: State, a: VS.Action): (r: State)
    requires SearchGraph(valves) && ValidState(valves, s) && s.time < Horizon
    requires a in Actions(valves, s)
    ensures ValidState(valves, r)
    ensures r == PerformAction(s, a, valves)
  {
    ActionsStayInGraph(valves, s, a);
    PerformAction(s, a, valves)
  }

  /** The pressure released by the horizon when the flow stays at `rate` from now on. */
  function Settled(s: State, rate: nat): nat
    requires s.time <= Horizon
  {
    s.releasedPressure + (Horizon - s.time) * rate
  }

  /** The value `solve` computes for a state, without the cache: the released
      pressure at the horizon; the pressure the current flow still releases once
      the open set equals the mask; otherwise the best successor. */
  function Value(valves: Valves, mask: BitVec64, s: State): (v: nat)
    requires SearchGraph(valves) && ValidState(valves, s)
    ensures v >= s.releasedPressure
    decreases Horizon - s.time, 1, 0
  {
    if s.time == Horizon then s.releasedPressure
    else if XorIsZero(s.openValves, mask) then Settled(s, FlowRate(s, valves))
    else BestSuccessor(valves, mask, s, |Actions(valves, s)|)
  }

  /** Maximum of the values of the successors through the first n actions
      (`.max().unwrap()`: n is at least one). */
  function BestSuccessor(valves: Valves, mask: BitVec64, s: State, n: nat): (v: nat)
    requires SearchGraph(valves) && ValidState(valves, s) && s.time < Horizon
    requires 1 <= n <= |Actions(valves, s)|
    ensures v >= s.releasedPressure
    decreases Horizon - s.time, 0, n
  {
    var last := SuccessorValue(valves, mask, s, n - 1);
    if n == 1 then last else Max(BestSuccessor(valves, mask, s, n - 1), last)
  }

  /** Value of the successor through the j-th legal action. */
  function SuccessorValue(valves: Valves, mask: BitVec64, s: State, j: nat): (v: nat)
    requires SearchGraph(valves) && ValidState(valves, s) && s.time < Horizon
    requires j < |Actions(valves, s)|
    decreases Horizon - s.time, 0, 0
  {
    Value(valves, mask, Successor(valves, s, Actions(valves, s)[j]))
  }

  /** Every cached score is the uncached value of its state. */
  predicate CacheSound(valves: Valves, mask: BitVec64, cache: map<State, nat>)
    requires SearchGraph(valves)
  {
    forall s :: s in cache ==> ValidState(valves, s) && cache[s] == Value(valves, mask, s)
  }

  lemma CacheInsert(valves: Valves, mask: BitVec64, cache: map<State, nat>, s: State, v: nat)
    requires SearchGraph(valves) && ValidState(valves, s) && CacheSound(valves, mask, cache)
    requires v == Value(valves, mask, s)
    ensures CacheSound(valves, mask, cache[s := v])
  {
  }

  /** The short-circuit of `solve` once the open set equals the mask: the current
      flow rate is released for every remaining step. */
  method SettledScore(valves: Valves, mask: BitVec64, state: State) returns (score: nat)
    requires SearchGraph(valves) && ValidState(valves, state) && state.time < Horizon
    requires XorIsZero(state.openValves, mask)
    ensures score == Value(valves, mask, state)
  {
    var flowRate := ComputeFlowRate(state, valves);
    score := Settled(state, flowRate);
  }

  /** `solve`, sequentially, with the score cache passed in and handed back: it
      returns the value of the state and only adds exact values to the cache. */
  method Solve(valves: Valves, mask: BitVec64, state: State, cache: map<State, nat>)
    returns (score: nat, newCache: map<State, nat>)
    requires SearchGraph(valves) && ValidState(valves, state) && CacheSound(valves, mask, cache)
    ensures score == Value(valves, mask, state)
    ensures state.time == Horizon ==> score == state.releasedPressure
    ensures CacheSound(valves, mask, newCache) && cache.Keys <= newCache.Keys
    decreases Horizon - state.time, 1
  {
    if state.time == Horizon {
      return state.releasedPressure, cache;
    }
    if XorIsZero(state.openValves, mask) {
      score := SettledScore(valves, mask, state);
      return score, cache;
    }
    if state in cache {
      return cache[state], cache;
    }
    var actions := CollectActions(valves, state);
    score, newCache := MaxOverActions(valves, mask, state, actions, cache);
    assert score == Value(valves, mask, state);
    CacheInsert(valves, mask, newCache, state, score);
    newCache := newCache[state := score];
  }

  /** The `.map(..).max().unwrap()` of `solve`: the best score over the successors
      of all legal actions, each solved recursively. */
  method MaxOverActions(valves: Valves, mask: BitVec64, state: State, actions: seq<VS.Action>, cache: map<State, nat>)
    returns (maxPressure: nat, newCache: map<State, nat>)
    requires SearchGraph(valves) && ValidState(valves, state) && state.time < Horizon
    requires CacheSound(valves, mask, cache)
    requires actions == Actions(valves, state)
    ensures maxPressure == BestSuccessor(valves, mask, state, |actions|)
    ensures CacheSound(valves, mask, newCache) && cache.Keys <= newCache.Keys
    decreases Horizon - state.time, 0
  {
    maxPressure := 0;
    newCache := cache;
    for i := 0 to |actions|
      invariant CacheSound(valves, mask, newCache) && cache.Keys <= newCache.Keys
      invariant i > 0 ==> maxPressure == BestSuccessor(valves, mask, state, i)
    {
      var newState := Successor(valves, state, actions[i]);
      var newStateScore;
      newStateScore, newCache := Solve(valves, mask, newState, newCache);
      maxPressure := if i == 0 then newStateScore else Max(maxPressure, newStateScore);
    }
  }

  /** `day16a` of src/day16.rs after parsing: the mask from the graph, an empty
      cache and the initial state at the start valve. */
  method Day16a(valves: Valves, start: ValveId) returns (result: nat)
    requires SearchGraph(valves) && start in valves
    ensures exists mask :: UsefulMask(valves, mask) && result == Value(valves, mask, CreateInitial(start))
  {
    var mask := CreateUsefulValvesMask(valves);
    var cache;
    result, cache := Solve(valves, mask, CreateInitial(start), map[]);
  }

  // ---- properties of the search ----

  /** No successor among the first n does better than `BestSuccessor`. */
  lemma {:induction false} BestSuccessorIsUpper(valves: Valves, mask: BitVec64, s: State, n: nat)
    requires SearchGraph(valves) && ValidState(valves, s) && s.time < Horizon
    requires 1 <= n <= |Actions(valves, s)|
    ensures forall j :: 0 <= j < n ==> SuccessorValue(valves, mask, s, j) <= BestSuccessor(valves, mask, s, n)
  {
    forall j | 0 <= j < n
      ensures SuccessorValue(valves, mask, s, j) <= BestSuccessor(valves, mask, s, n)
    {
      BestSuccessorBounds(valves, mask, s, n, j);
    }
  }

  lemma {:induction false} BestSuccessorBounds(valves: Valves, mask: BitVec64, s: State, n: nat, j: nat)
    requires SearchGraph(valves) && ValidState(valves, s) && s.time < Horizon
    requires 1 <= n <= |Actions(valves, s)| && j < n
    ensures SuccessorValue(valves, mask, s, j) <= BestSuccessor(valves, mask, s, n)
  {
    if j < n - 1 {
      BestSuccessorBounds(valves, mask, s, n - 1, j);
    }
  }

  /** Some successor among the first n attains `BestSuccessor`. */
  lemma {:induction false} BestSuccessorIsAttained(valves: Valves, mask: BitVec64, s: State, n: nat)
      returns (j: nat)
    requires SearchGraph(valves) && ValidState(valves, s) && s.time < Horizon
    requires 1 <= n <= |Actions(valves, s)|
    ensures j < n && SuccessorValue(valves, mask, s, j) == BestSuccessor(valves, mask, s, n)
  {
    if n == 1 {
      j := 0;
    } else {
      var k := BestSuccessorIsAttained(valves, mask, s, n - 1);
      if SuccessorValue(valves, mask, s, k) >= SuccessorValue(valves, mask, s, n - 1) {
        j := k;
      } else {
        j := n - 1;
      }
    }
  }

  /** Before the horizon and with the open set different from the mask, the value
      is the maximum over the successor values of the legal actions: no legal
      action does better and some legal action achieves it. */
  lemma ValueIsMaxOverActions(valves: Valves, mask: BitVec64, s: State)
    requires SearchGraph(valves) && ValidState(valves, s) && s.time < Horizon
    requires !XorIsZero(s.openValves, mask)
    ensures forall a :: a in Actions(valves, s) ==>
              Value(valves, mask, Successor(valves, s, a)) <= Value(valves, mask, s)
    ensures exists a :: a in Actions(valves, s) &&
              Value(valves, mask, Successor(valves, s, a)) == Value(valves, mask, s)
  {
    var acts := Actions(valves, s);
    BestSuccessorIsUpper(valves, mask, s, |acts|);
    var j := BestSuccessorIsAttained(valves, mask, s, |acts|);
    assert acts[j] in acts;
    forall a | a in acts ensures Value(valves, mask, Successor(valves, s, a)) <= Value(valves, mask, s) {
      var k :| 0 <= k < |acts| && acts[k] == a;
      assert SuccessorValue(valves, mask, s, k) <= Value(valves, mask, s);
    }
  }

  /** Every open bit is a bit of the mask. */
  predicate OpenWithinMask(s: State, mask: BitVec64)
  {
    forall i :: 0 <= i < BitBound && Get(s.openValves, i) ==> Get(mask, i)
  }

  /** `Open` is offered only on a closed positive-flow valve, so a legal step keeps
      the open set inside the useful mask. */
  lemma StepKeepsOpenWithinMask(valves: Valves, mask: BitVec64, s: State, a: VS.Action)
    requires SearchGraph(valves) && ValidState(valves, s) && s.time < Horizon
    requires UsefulMask(valves, mask) && OpenWithinMask(s, mask)
    requires a in Actions(valves, s)
    ensures OpenWithinMask(Successor(valves, s, a), mask)
  {
    ActionsStayInGraph(valves, s, a);
  }

  /** When the open set equals the useful mask every useful valve is open. */
  lemma ShortCircuitMeansAllUsefulOpen(valves: Valves, mask: BitVec64, s: State)
    requires SearchGraph(valves) && UsefulMask(valves, mask) && XorIsZero(s.openValves, mask)
    ensures forall id :: id in valves && valves[id].flowRate > 0 ==> IsValveOpen(s, id)
  {
    XorIsZeroMeansSame(s.openValves, mask);
  }

  /** A graph without positive-flow valves yields 0: its mask is empty, so the
      initial state short-circuits with no flow. */
  lemma NoUsefulValvesYieldsZero(valves: Valves, start: ValveId)
    requires SearchGraph(valves) && start in valves
    requires forall id :: id in valves ==> valves[id].flowRate == 0
    ensures Value(valves, New(), CreateInitial(start)) == 0
  {
    var s := CreateInitial(start);
    XorIsZeroMeansSame(s.openValves, New());
    NothingOpenNoFlow(s, valves, BitBound);
  }
}
