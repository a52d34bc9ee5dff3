/** The single-agent valve search of src/day16a.rs: `create_useful_valves_mask`
    and the memoised `solve_a` over the shared `State`, 30 steps from time 1. */
module Day16a {
  import opened Wrappers
  import opened Bits32
  import opened ValveGraph
  import opened ValveState

  /** `solve_a` stops at time 31. */
  const Horizon: nat := 31

  /** Bit i of `mask` is set iff the valve with id i exists and has positive flow. */
  predicate UsefulMask(valves: Valves, mask: BitVec32)
  {
    forall i :: 0 <= i < 32 ==> (Get(mask, i) <==> i in valves && valves[i].flowRate > 0)
  }

  /** `create_useful_valves_mask`: one pass over the valves setting the bit of each
      positive-flow valve (whose id must have a bit). */
  method CreateUsefulValvesMask(valves: Valves) returns (mask: BitVec32)
    requires forall id :: id in valves && valves[id].flowRate > 0 ==> id < 32
    ensures UsefulMask(valves, mask)
    ensures (forall id :: id in valves ==> valves[id].flowRate == 0) ==> mask == New()
  {
    mask := New();
    var rest := valves.Keys;
    while rest != {}
      invariant rest <= valves.Keys
      invariant forall i :: 0 <= i < 32 ==>
                  (Get(mask, i) <==> i in valves.Keys - rest && valves[i].flowRate > 0)
      invariant (forall id :: id in valves ==> valves[id].flowRate == 0) ==> mask == New()
      decreases |rest|
    {
      var id :| id in rest;
      if valves[id].flowRate > 0 {
        mask := Set(mask, id, true);
      }
      rest := rest - {id};
    }
  }

  predicate ValidState(valves: Valves, s: State)
  {
    s.time <= Horizon && s.currentValve in valves
  }

  /** The state after the agent takes `a` (the helper stays idle). */
  function Successor(valves: Valves, s: State, a: Action): (r: State)
    requires SearchGraph(valves) && ValidState(valves, s) && s.time < Horizon
    requires a in Actions(valves, s, s.currentValve)
    ensures ValidState(valves, r)
    ensures r == PerformActions(s, a, None, valves)
  {
    ActionsStayInGraph(valves, s, s.currentValve, a);
    PerformActions(s, a, None, valves)
  }

  /** The pressure released by the horizon when the flow stays at `rate` from now on. */
  function Settled(s: State, rate: nat): nat
    requires s.time <= Horizon
  {
    s.releasedPressure + (Horizon - s.time) * rate
  }

  /** The value `solve_a` computes for a state, without the cache: the released
      pressure at the horizon; the pressure the current flow still releases once
      the open set equals the mask; otherwise the best successor. */
  function Value(valves: Valves, mask: BitVec32, s: State): (v: nat)
    requires SearchGraph(valves) && ValidState(valves, s)
    ensures v >= s.releasedPressure
    decreases Horizon - s.time, 1, 0
  {
    if s.time == Horizon then s.releasedPressure
    else if XorIsZero(s.openValves, mask) then Settled(s, FlowRate(s, valves))
    else BestSuccessor(valves, mask, s, |Actions(valves, s, s.currentValve)|)
  }

  /** Maximum of the values of the successors through the first n actions
      (`.max().unwrap()`: n is at least one). */
  function BestSuccessor(valves: Valves, mask: BitVec32, s: State, n: nat): (v: nat)
    requires SearchGraph(valves) && ValidState(valves, s) && s.time < Horizon
    requires 1 <= n <= |Actions(valves, s, s.currentValve)|
    ensures v >= s.releasedPressure
    decreases Horizon - s.time, 0, n
  {
    var last := SuccessorValue(valves, mask, s, n - 1);
    if n == 1 then last else Max(BestSuccessor(valves, mask, s, n - 1), last)
  }

  /** Value of the successor through the j-th legal action. */
  function SuccessorValue(valves: Valves, mask: BitVec32, s: State, j: nat): (v: nat)
    requires SearchGraph(valves) && ValidState(valves, s) && s.time < Horizon
    requires j < |Actions(valves, s, s.currentValve)|
    decreases Horizon - s.time, 0, 0
  {
    Value(valves, mask, Successor(valves, s, Actions(valves, s, s.currentValve)[j]))
  }

  /** Every cached score is the uncached value of its state. */
  predicate CacheSound(valves: Valves, mask: BitVec32, cache: map<State, nat>)
    requires SearchGraph(valves)
  {
    forall s :: s in cache ==> ValidState(valves, s) && cache[s] == Value(valves, mask, s)
  }

  lemma CacheInsert(valves: Valves, mask: BitVec32, cache: map<State, nat>, s: State, v: nat)
    requires SearchGraph(valves) && ValidState(valves, s) && CacheSound(valves, mask, cache)
    requires v == Value(valves, mask, s)
    ensures CacheSound(valves, mask, cache[s := v])
  {
  }

  /** The short-circuit of `solve_a` once every useful valve is open: the current
      flow rate is released for every remaining step. */
  method SettledScore(valves: Valves, mask: BitVec32, state: State) returns (score: nat)
    requires SearchGraph(valves) && ValidState(valves, state) && state.time < Horizon
    requires XorIsZero(state.openValves, mask)
    ensures score == Value(valves, mask, state)
  {
    var flowRate := ComputeFlowRate(state, valves);
    score := Settled(state, flowRate);
  }

  /** `solve_a`, sequentially, with the score cache passed in and handed back:
      it returns the value of the state and only adds exact values to the cache. */
  method SolveA(valves: Valves, mask: BitVec32, state: State, cache: map<State, nat>)
    returns (score: nat, newCache: map<State, nat>)
    requires SearchGraph(valves) && ValidState(valves, state) && CacheSound(valves, mask, cache)
    ensures score == Value(valves, mask, state)
    ensures state.time == Horizon ==> score == state.releasedPressure
    ensures CacheSound(valves, mask, newCache) && cache.Keys <= newCache.Keys
    decreases Horizon - state.time, 1
  {
    if state.time == Horizon {
      return state.releasedPressure, cache;
    }
    if XorIsZero(state.openValves, mask) {
      score := SettledScore(valves, mask, state);
      return score, cache;
    }
    if state in cache {
      return cache[state], cache;
    }
    var actions := CollectActions(valves, state, state.currentValve);
    score, newCache := MaxOverActions(valves, mask, state, actions, cache);
    assert score == Value(valves, mask, state);
    CacheInsert(valves, mask, newCache, state, score);
    newCache := newCache[state := score];
  }

  /** The `.map(..).max().unwrap()` of `solve_a`: the best score over the
      successors of all legal actions, each solved recursively. */
  method MaxOverActions(valves: Valves, mask: BitVec32, state: State, actions: seq<Action>, cache: map<State, nat>)
    returns (maxPressure: nat, newCache: map<State, nat>)
    requires SearchGraph(valves) && ValidState(valves, state) && state.time < Horizon
    requires CacheSound(valves, mask, cache)
    requires actions == Actions(valves, state, state.currentValve)
    ensures maxPressure == BestSuccessor(valves, mask, state, |actions|)
    ensures CacheSound(valves, mask, newCache) && cache.Keys <= newCache.Keys
    decreases Horizon - state.time, 0
  {
    maxPressure := 0;
    newCache := cache;
    for i := 0 to |actions|
      invariant CacheSound(valves, mask, newCache) && cache.Keys <= newCache.Keys
      invariant i > 0 ==> maxPressure == BestSuccessor(valves, mask, state, i)
    {
      var newState := Successor(valves, state, actions[i]);
      var newStateScore;
      newStateScore, newCache := SolveA(valves, mask, newState, newCache);
      maxPressure := if i == 0 then newStateScore else Max(maxPressure, newStateScore);
    }
  }

  // ---- properties of the search ----

  /** `day16a` of src/day16a.rs after parsing: an empty cache and the initial state
      at the start valve with no helper; `solve_a` builds the mask from the graph. */
  method Day16a(valves: Valves, start: ValveId) returns (result: nat)
    requires SearchGraph(valves) && start in valves
    ensures exists mask :: UsefulMask(valves, mask) && result == Value(valves, mask, CreateInitial(start, None))
  {
    var mask := CreateUsefulValvesMask(valves);
    var cache;
    result, cache := SolveA(valves, mask, CreateInitial(start, None), map[]);
  }

  /** No successor among the first n does better than `BestSuccessor`. */
  lemma {:induction false} BestSuccessorIsUpper(valves: Valves, mask: BitVec32, s: State, n: nat)
    requires SearchGraph(valves) && ValidState(valves, s) && s.time < Horizon
    requires 1 <= n <= |Actions(valves, s, s.currentValve)|
    ensures forall j :: 0 <= j < n ==> SuccessorValue(valves, mask, s, j) <= BestSuccessor(valves, mask, s, n)
  {
    forall j | 0 <= j < n
      ensures SuccessorValue(valves, mask, s, j) <= BestSuccessor(valves, mask, s, n)
    {
      BestSuccessorBounds(valves, mask, s, n, j);
    }
  }

  lemma {:induction false} BestSuccessorBounds(valves: Valves, mask: BitVec32, s: State, n: nat, j: nat)
    requires SearchGraph(valves) && ValidState(valves, s) && s.time < Horizon
    requires 1 <= n <= |Actions(valves, s, s.currentValve)| && j < n
    ensures SuccessorValue(valves, mask, s, j) <= BestSuccessor(valves, mask, s, n)
  {
    if j < n - 1 {
      BestSuccessorBounds(valves, mask, s, n - 1, j);
    }
  }

  /** Some successor among the first n attains `BestSuccessor`. */
  lemma {:induction false} BestSuccessorIsAttained(valves: Valves, mask: BitVec32, s: State, n: nat)
      returns (j: nat)
    requires SearchGraph(valves) && ValidState(valves, s) && s.time < Horizon
    requires 1 <= n <= |Actions(valves, s, s.currentValve)|
    ensures j < n && SuccessorValue(valves, mask, s, j) == BestSuccessor(valves, mask, s, n)
  {
    if n == 1 {
      j := 0;
    } else {
      var k := BestSuccessorIsAttained(valves, mask, s, n - 1);
      if SuccessorValue(valves, mask, s, k) >= SuccessorValue(valves, mask, s, n - 1) {
        j := k;
      } else {
        j := n - 1;
      }
    }
  }

  /** Before the horizon and with the open set different from the mask, the value
      is the maximum over the successor values of the legal actions: no legal
      action does better and some legal action achieves it. */
  lemma ValueIsMaxOverActions(valves: Valves, mask: BitVec32, s: State)
    requires SearchGraph(valves) && ValidState(valves, s) && s.time < Horizon
    requires !XorIsZero(s.openValves, mask)
    ensures forall a :: a in Actions(valves, s, s.currentValve) ==>
              Value(valves, mask, Successor(valves, s, a)) <= Value(valves, mask, s)
    ensures exists a :: a in Actions(valves, s, s.currentValve) &&
              Value(valves, mask, Successor(valves, s, a)) == Value(valves, mask, s)
  {
    var acts := Actions(valves, s, s.currentValve);
    BestSuccessorIsUpper(valves, mask, s, |acts|);
    var j := BestSuccessorIsAttained(valves, mask, s, |acts|);
    assert acts[j] in acts;
    forall a | a in acts ensures Value(valves, mask, Successor(valves, s, a)) <= Value(valves, mask, s) {
      var k :| 0 <= k < |acts| && acts[k] == a;
      assert SuccessorValue(valves, mask, s, k) <= Value(valves, mask, s);
    }
  }

  /** Every open bit is a bit of the mask. */
  predicate OpenWithinMask(s: State, mask: BitVec32)
  {
    forall i :: 0 <= i < 32 && Get(s.openValves, i) ==> Get(mask, i)
  }

  /** `Open` is offered only on a closed positive-flow valve, so a legal step keeps
      the open set inside the useful mask. */
  lemma StepKeepsOpenWithinMask(valves: Valves, mask: BitVec32, s: State, a: Action)
    requires SearchGraph(valves) && ValidState(valves, s) && s.time < Horizon
    requires UsefulMask(valves, mask) && OpenWithinMask(s, mask)
    requires a in Actions(valves, s, s.currentValve)
    ensures OpenWithinMask(Successor(valves, s, a), mask)
  {
    ActionsStayInGraph(valves, s, s.currentValve, a);
  }

  /** When the open set equals the useful mask every useful valve is open. */
  lemma ShortCircuitMeansAllUsefulOpen(valves: Valves, mask: BitVec32, s: State)
    requires UsefulMask(valves, mask) && XorIsZero(s.openValves, mask)
    ensures forall id :: id in valves && valves[id].flowRate > 0 && id < 32 ==> IsValveOpen(s, id)
  {
    XorIsZeroMeansSame(s.openValves, mask);
  }

  /** A graph without positive-flow valves yields 0: its mask is empty, so the
      initial state short-circuits with no flow. */
  lemma NoUsefulValvesYieldsZero(valves: Valves, start: ValveId)
    requires SearchGraph(valves) && start in valves
    requires forall id :: id in valves ==> valves[id].flowRate == 0
    ensures Value(valves, New(), CreateInitial(start, None)) == 0
  {
    var s := CreateInitial(start, None);
    NothingOpenNoFlow(s, valves, IdBound);
  }
}
