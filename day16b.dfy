/** The two-agent valve search of src/day16b.rs: `solve_b` read sequentially, with
    the shared score cache and the shared best score passed in and handed back. */
module Day16b {
  import opened Wrappers
  import opened Bits32
  import opened ValveGraph
  import opened ValveState

  /** `TOTAL_ROUNDS`: the search stops at time 27. */
  const TotalRounds: nat := 27

  /** A state whose cursors stand on valves of the graph, not past the last round. */
  predicate InGraph(valves: Valves, s: State)
  {
    s.time <= TotalRounds && s.currentValve in valves && s.helperCurrentValve in valves
  }

  // ---- the action pairs ----

  /** The filter of `solve_b`: both agents moving through the same tunnel, and both
      opening while on the same valve, are pruned; every other pair is kept. */
  predicate Allowed(s: State, mine: Action, helper: Action)
  {
    match (mine, helper)
    case (Move(a), Move(b)) => a != b
    case (Open, Open) => s.currentValve != s.helperCurrentValve
    case _ => true
  }

  /** The kept pairs with my action `mine`, in the helper actions' order. */
  function Row(s: State, mine: Action, helpers: seq<Action>): (r: seq<(Action, Action)>)
    ensures |r| <= |helpers|
  {
    if |helpers| == 0 then []
    else
      var h := helpers[|helpers| - 1];
      Row(s, mine, helpers[..|helpers| - 1]) + (if Allowed(s, mine, h) then [(mine, h)] else [])
  }

  /** The pairs `solve_b` expands: the kept pairs of every one of my actions. */
  function Pairs(s: State, mines: seq<Action>, helpers: seq<Action>): seq<(Action, Action)>
  {
    if |mines| == 0 then []
    else Pairs(s, mines[..|mines| - 1], helpers) + Row(s, mines[|mines| - 1], helpers)
  }

  lemma {:induction false} RowMembers(s: State, mine: Action, helpers: seq<Action>, p: (Action, Action))
    ensures p in Row(s, mine, helpers) <==> p.0 == mine && p.1 in helpers && Allowed(s, mine, p.1)
  {
    if |helpers| > 0 {
      var init := helpers[..|helpers| - 1];
      RowMembers(s, mine, init, p);
      assert helpers == init + [helpers[|helpers| - 1]];
    }
  }

  /** A pair is expanded exactly when both actions are offered and the filter
      keeps it. */
  lemma {:induction false} PairsMembers(s: State, mines: seq<Action>, helpers: seq<Action>, p: (Action, Action))
    ensures p in Pairs(s, mines, helpers) <==> p.0 in mines && p.1 in helpers && Allowed(s, p.0, p.1)
  {
    if |mines| > 0 {
      var init := mines[..|mines| - 1];
      var last := mines[|mines| - 1];
      PairsMembers(s, init, helpers, p);
      RowMembers(s, last, helpers, p);
      assert mines == init + [last];
      assert p.0 in mines <==> p.0 in init || p.0 == last;
      assert p in Pairs(s, mines, helpers) <==> p in Pairs(s, init, helpers) || p in Row(s, last, helpers);
    }
  }

  /** The filter removes exactly the two kinds of pair. */
  lemma FilterRemovesExactly(s: State, mine: Action, helper: Action)
    ensures !Allowed(s, mine, helper) <==>
              || (mine.Move? && helper.Move? && mine.target == helper.target)
              || (mine == Open && helper == Open && s.currentValve == s.helperCurrentValve)
  {
  }

  /** The `flat_map`/`filter` of `solve_b` as nested loops building the pair list. */
  method CollectPairs(s: State, mines: seq<Action>, helpers: seq<Action>) returns (pairs: seq<(Action, Action)>)
    ensures pairs == Pairs(s, mines, helpers)
  {
    pairs := [];
    for i := 0 to |mines|
      invariant pairs == Pairs(s, mines[..i], helpers)
    {
      var row := [];
      for j := 0 to |helpers|
        invariant row == Row(s, mines[i], helpers[..j])
      {
        assert helpers[..j + 1][..j] == helpers[..j];
        if Allowed(s, mines[i], helpers[j]) {
          row := row + [(mines[i], helpers[j])];
        }
      }
      assert helpers[..|helpers|] == helpers;
      assert mines[..i + 1][..i] == mines[..i];
      pairs := pairs + row;
    }
    assert mines[..|mines|] == mines;
  }

  /** The pairs offered in state `s`. */
  function StatePairs(valves: Valves, s: State): seq<(Action, Action)>
    requires InGraph(valves, s)
  {
    Pairs(s, Actions(valves, s, s.currentValve), Actions(valves, s, s.helperCurrentValve))
  }

  /** The state after both agents act. */
  function Step(valves: Valves, s: State, p: (Action, Action)): (r: State)
    requires SearchGraph(valves) && InGraph(valves, s) && s.time < TotalRounds
    requires p in StatePairs(valves, s)
    ensures InGraph(valves, r)
  {
    PairStaysInGraph(valves, s, p);
    PerformActions(s, p.0, Some(p.1), valves)
  }

  /** Both actions of a kept pair are legal: a move follows a tunnel and an
      open happens on a valve that has a bit. */
  lemma PairStaysInGraph(valves: Valves, s: State, p: (Action, Action))
    requires SearchGraph(valves) && InGraph(valves, s) && p in StatePairs(valves, s)
    ensures p.0.Open? ==> s.currentValve < 32
    ensures p.1.Open? ==> s.helperCurrentValve < 32
    ensures p.0.Move? ==> p.0.target in valves
    ensures p.1.Move? ==> p.1.target in valves
  {
    PairsMembers(s, Actions(valves, s, s.currentValve), Actions(valves, s, s.helperCurrentValve), p);
    ActionsStayInGraph(valves, s, s.currentValve, p.0);
    ActionsStayInGraph(valves, s, s.helperCurrentValve, p.1);
  }

  // ---- the exact value ----

  /** The pressure released by the last round when the flow stays at `rate`. */
  function Settled(s: State, rate: nat): nat
    requires s.time <= TotalRounds
  {
    s.releasedPressure + (TotalRounds - s.time) * rate
  }

  /** What `solve_b` computes with neither cache nor pruning: the released pressure
      at round 27; the pressure the current flow releases once k valves are open;
      otherwise the best value over the expanded pairs, 0 when there is none. */
  function Value2(valves: Valves, k: nat, s: State): nat
    requires SearchGraph(valves) && InGraph(valves, s)
    decreases TotalRounds - s.time, 1, 0
  {
    if s.time == TotalRounds then s.releasedPressure
    else if CountOnes(s.openValves) == k then Settled(s, FlowRate(s, valves))
    else BestPair(valves, k, s, |StatePairs(valves, s)|)
  }

  /** The best value over the first n pairs (`.max().unwrap_or(0)`). */
  function BestPair(valves: Valves, k: nat, s: State, n: nat): nat
    requires SearchGraph(valves) && InGraph(valves, s) && s.time < TotalRounds
    requires n <= |StatePairs(valves, s)|
    decreases TotalRounds - s.time, 0, n
  {
    if n == 0 then 0 else Max(BestPair(valves, k, s, n - 1), PairValue(valves, k, s, n - 1))
  }

  /** The value of the state reached through the j-th pair. */
  function PairValue(valves: Valves, k: nat, s: State, j: nat): nat
    requires SearchGraph(valves) && InGraph(valves, s) && s.time < TotalRounds
    requires j < |StatePairs(valves, s)|
    decreases TotalRounds - s.time, 0, 0
  {
    Value2(valves, k, Step(valves, s, StatePairs(valves, s)[j]))
  }

  lemma {:induction false} BestPairIsUpper(valves: Valves, k: nat, s: State, n: nat)
    requires SearchGraph(valves) && InGraph(valves, s) && s.time < TotalRounds
    requires n <= |StatePairs(valves, s)|
    ensures forall j :: 0 <= j < n ==> PairValue(valves, k, s, j) <= BestPair(valves, k, s, n)
  {
    if n > 0 {
      BestPairIsUpper(valves, k, s, n - 1);
    }
  }

  lemma {:induction false} BestPairIsAttained(valves: Valves, k: nat, s: State, n: nat) returns (j: nat)
    requires SearchGraph(valves) && InGraph(valves, s) && s.time < TotalRounds
    requires 1 <= n <= |StatePairs(valves, s)|
    ensures j < n && PairValue(valves, k, s, j) == BestPair(valves, k, s, n)
  {
    if n == 1 {
      j := 0;
    } else {
      var i := BestPairIsAttained(valves, k, s, n - 1);
      if PairValue(valves, k, s, i) >= PairValue(valves, k, s, n - 1) {
        j := i;
      } else {
        j := n - 1;
      }
    }
  }

  /** An expanded state is worth the best of its pairs: no expanded pair does
      better, some pair attains it, and with no pair at all it is worth 0. */
  lemma Value2IsMaxOverPairs(valves: Valves, k: nat, s: State)
    requires SearchGraph(valves) && InGraph(valves, s) && s.time < TotalRounds
    requires CountOnes(s.openValves) != k
    ensures forall p :: p in StatePairs(valves, s) ==>
              Value2(valves, k, Step(valves, s, p)) <= Value2(valves, k, s)
    ensures StatePairs(valves, s) == [] ==> Value2(valves, k, s) == 0
    ensures StatePairs(valves, s) != [] ==>
              exists p :: p in StatePairs(valves, s) && Value2(valves, k, Step(valves, s, p)) == Value2(valves, k, s)
  {
    var pairs := StatePairs(valves, s);
    BestPairIsUpper(valves, k, s, |pairs|);
    forall p | p in pairs ensures Value2(valves, k, Step(valves, s, p)) <= Value2(valves, k, s) {
      var i :| 0 <= i < |pairs| && pairs[i] == p;
      assert PairValue(valves, k, s, i) <= Value2(valves, k, s);
    }
    if pairs != [] {
      var j := BestPairIsAttained(valves, k, s, |pairs|);
      assert pairs[j] in pairs;
    }
  }

  /** No kept pair leads to a better value than its parent's. */
  lemma StepValueBounded(valves: Valves, k: nat, s: State, p: (Action, Action))
    requires SearchGraph(valves) && InGraph(valves, s) && s.time < TotalRounds
    requires CountOnes(s.openValves) != k && p in StatePairs(valves, s)
    ensures Value2(valves, k, Step(valves, s, p)) <= Value2(valves, k, s)
  {
    Value2IsMaxOverPairs(valves, k, s);
  }

  // ---- the upper bound ----

  /** One step adds at most the total flow to the released pressure, so the
      bound of a successor is not above the bound of its parent. */
  lemma StepKeepsBound(valves: Valves, s: State, p: (Action, Action))
    requires SearchGraph(valves) && InGraph(valves, s) && s.time < TotalRounds
    requires p in StatePairs(valves, s)
    ensures UpperBound(Step(valves, s, p), valves, TotalRounds) <= UpperBound(s, valves, TotalRounds)
  {
    var r := Step(valves, s, p);
    OpenPlusClosed(s, valves);
    var rest := TotalRounds - r.time;
    assert TotalRounds - s.time == rest + 1;
    assert TotalFlow(valves) * (rest + 1) == TotalFlow(valves) * rest + TotalFlow(valves);
  }

  lemma {:induction false} BestPairWithinBound(valves: Valves, k: nat, s: State, n: nat)
    requires SearchGraph(valves) && InGraph(valves, s) && s.time < TotalRounds
    requires n <= |StatePairs(valves, s)|
    ensures BestPair(valves, k, s, n) <= UpperBound(s, valves, TotalRounds)
    decreases TotalRounds - s.time, 0, n
  {
    if n > 0 {
      BestPairWithinBound(valves, k, s, n - 1);
      var p := StatePairs(valves, s)[n - 1];
      UpperBoundAdmissible(valves, k, Step(valves, s, p));
      StepKeepsBound(valves, s, p);
    }
  }

  /** `futher_score_upper_bound` is admissible: no continuation releases more than
      every valve's flow for every remaining round. */
  lemma {:induction false} UpperBoundAdmissible(valves: Valves, k: nat, s: State)
    requires SearchGraph(valves) && InGraph(valves, s)
    ensures Value2(valves, k, s) <= UpperBound(s, valves, TotalRounds)
    decreases TotalRounds - s.time, 1, 0
  {
    if s.time == TotalRounds {
    } else if CountOnes(s.openValves) == k {
      OpenPlusClosed(s, valves);
      var rest := TotalRounds - s.time;
      assert rest * FlowRate(s, valves) <= TotalFlow(valves) * rest;
    } else {
      BestPairWithinBound(valves, k, s, |StatePairs(valves, s)|);
    }
  }

  /** A branch cut because its bound lies below the best score could not have
      beaten that score. */
  lemma PrunedBranchIsWorse(valves: Valves, k: nat, s: State, best: nat)
    requires SearchGraph(valves) && InGraph(valves, s)
    requires UpperBound(s, valves, TotalRounds) < best
    ensures Value2(valves, k, s) < best
  {
    UpperBoundAdmissible(valves, k, s);
  }

  // ---- the count_ones short-circuit ----

  /** A step only opens closed positive-flow valves, so the open bits stay in 1..k. */
  lemma StepKeepsBitsWithin(valves: Valves, k: nat, s: State, p: (Action, Action))
    requires SearchGraph(valves) && InGraph(valves, s) && s.time < TotalRounds
    requires UsefulIdsWithin(valves, k) && BitsWithin(s.openValves, k)
    requires p in StatePairs(valves, s)
    ensures BitsWithin(Step(valves, s, p).openValves, k)
  {
    PairsMembers(s, Actions(valves, s, s.currentValve), Actions(valves, s, s.helperCurrentValve), p);
    ActionsStayInGraph(valves, s, s.currentValve, p.0);
    ActionsStayInGraph(valves, s, s.helperCurrentValve, p.1);
  }

  /** With the open bits in 1..k and the useful valves exactly 1..k (k < 32),
      `count_ones() == k` holds iff every useful valve is open. */
  lemma CountOnesMeansAllUsefulOpen(valves: Valves, k: nat, s: State)
    requires k < 32 && UsefulIdsAre(valves, k) && BitsWithin(s.openValves, k)
    ensures CountOnes(s.openValves) == k <==>
              forall id :: id in valves && valves[id].flowRate > 0 ==> IsValveOpen(s, id)
  {
    CountOnesIsFull(s.openValves, k);
    if CountOnes(s.openValves) != k {
      var i :| 1 <= i <= k && !Get(s.openValves, i);
      assert i in valves && valves[i].flowRate > 0 && !IsValveOpen(s, i);
    }
  }

  // ---- the search ----

  /** Every cached score is at most the exact value of its state, and falls short
      of it only where the best score already reaches that value: a pruned
      branch yields a 0 that may flow into its parent's cached maximum, but only
      when its bound lies below the best score. */
  predicate CacheSound(valves: Valves, k: nat, cache: map<State, nat>, best: nat)
    requires SearchGraph(valves)
  {
    forall s :: s in cache ==>
      && InGraph(valves, s)
      && cache[s] <= Value2(valves, k, s)
      && Value2(valves, k, s) <= Max(cache[s], best)
  }

  lemma CacheInsert(valves: Valves, k: nat, cache: map<State, nat>, best: nat, s: State, v: nat)
    requires SearchGraph(valves) && InGraph(valves, s) && CacheSound(valves, k, cache, best)
    requires v <= Value2(valves, k, s) <= Max(v, best)
    ensures CacheSound(valves, k, cache[s := v], best)
  {
  }

  /** A higher best score keeps the cache sound. */
  lemma CacheSoundRaise(valves: Valves, k: nat, cache: map<State, nat>, best: nat, best': nat)
    requires SearchGraph(valves) && CacheSound(valves, k, cache, best) && best <= best'
    ensures CacheSound(valves, k, cache, best')
  {
  }

  /** The short-circuit once k valves are open. */
  method SettledScore(valves: Valves, k: nat, state: State) returns (score: nat)
    requires SearchGraph(valves) && InGraph(valves, state) && state.time < TotalRounds
    requires CountOnes(state.openValves) == k
    ensures score == Value2(valves, k, state)
  {
    var flowRate := ComputeFlowRate(state, valves);
    score := Settled(state, flowRate);
  }

  /** `solve_b`: the released pressure at round 27; otherwise a cached score;
      otherwise the exact value once `useful_valves_count` valves are open;
      otherwise 0 when the bound lies below the best score; otherwise the best
      over the expanded pairs, which it caches and raises the best score to.
      The result never exceeds the exact value and falls short of it only where
      the new best score reaches that value; the best score never decreases and
      only rises to a score this call returns; the cache stays sound. */
  method SolveB(valves: Valves, k: nat, state: State, cache: map<State, nat>, best: nat)
    returns (score: nat, newCache: map<State, nat>, newBest: nat)
    requires SearchGraph(valves) && InGraph(valves, state) && CacheSound(valves, k, cache, best)
    ensures score <= Value2(valves, k, state) <= Max(score, newBest)
    ensures state.time == TotalRounds ==> score == state.releasedPressure
    ensures state.time < TotalRounds && state !in cache && CountOnes(state.openValves) == k ==>
              score == Value2(valves, k, state)
    ensures best <= newBest <= Max(best, score)
    ensures CacheSound(valves, k, newCache, newBest) && cache.Keys <= newCache.Keys
    decreases TotalRounds - state.time, 1
  {
    if state.time == TotalRounds {
      return state.releasedPressure, cache, best;
    }
    if state in cache {
      return cache[state], cache, best;
    }
    if CountOnes(state.openValves) == k {
      score := SettledScore(valves, k, state);
      return score, cache, best;
    }
    var upperBound := ComputeUpperBound(state, valves, TotalRounds);
    if upperBound < best {
      PrunedBranchIsWorse(valves, k, state, best);
      return 0, cache, best;
    }
    score, newCache, newBest := MaxOverPairs(valves, k, state, cache, best);
    ghost var before := newBest;
    if score > newBest {
      newBest := score;
    }
    CacheSoundRaise(valves, k, newCache, before, newBest);
    CacheInsert(valves, k, newCache, newBest, state, score);
    newCache := newCache[state := score];
  }

  /** The body of `solve_b` past pruning: both action lists, the kept pairs, and
      the maximum over their recursively solved successors (0 for none). */
  method MaxOverPairs(valves: Valves, k: nat, state: State, cache: map<State, nat>, best: nat)
    returns (maxPressure: nat, newCache: map<State, nat>, newBest: nat)
    requires SearchGraph(valves) && InGraph(valves, state) && state.time < TotalRounds
    requires CountOnes(state.openValves) != k
    requires CacheSound(valves, k, cache, best)
    ensures maxPressure <= Value2(valves, k, state) <= Max(maxPressure, newBest)
    ensures best <= newBest <= Max(best, maxPressure)
    ensures CacheSound(valves, k, newCache, newBest) && cache.Keys <= newCache.Keys
    decreases TotalRounds - state.time, 0, 1
  {
    var myActions := CollectActions(valves, state, state.currentValve);
    var helperActions := CollectActions(valves, state, state.helperCurrentValve);
    var pairs := CollectPairs(state, myActions, helperActions);
    maxPressure := 0;
    newCache := cache;
    newBest := best;
    for i := 0 to |pairs|
      invariant pairs == StatePairs(valves, state)
      invariant maxPressure <= Value2(valves, k, state)
      invariant BestPair(valves, k, state, i) <= Max(maxPressure, newBest)
      invariant best <= newBest <= Max(best, maxPressure)
      invariant CacheSound(valves, k, newCache, newBest) && cache.Keys <= newCache.Keys
    {
      assert pairs[i] in StatePairs(valves, state);
      ghost var bestBefore := newBest;
      var newStateScore;
      newStateScore, newCache, newBest := SolvePair(valves, k, state, pairs[i], newCache, newBest);
      MaxStep(BestPair(valves, k, state, i), PairValue(valves, k, state, i), maxPressure, bestBefore,
              newStateScore, newBest, best);
      maxPressure := Max(maxPressure, newStateScore);
    }
    assert Value2(valves, k, state) == BestPair(valves, k, state, |pairs|);
  }

  /** One pair of the `.map(..)` of `solve_b`: both actions performed and the
      successor solved recursively. */
  method SolvePair(valves: Valves, k: nat, state: State, p: (Action, Action), cache: map<State, nat>, best: nat)
    returns (score: nat, newCache: map<State, nat>, newBest: nat)
    requires SearchGraph(valves) && InGraph(valves, state) && state.time < TotalRounds
    requires CountOnes(state.openValves) != k && p in StatePairs(valves, state)
    requires CacheSound(valves, k, cache, best)
    ensures score <= Value2(valves, k, Step(valves, state, p)) <= Max(score, newBest)
    ensures score <= Value2(valves, k, state)
    ensures best <= newBest <= Max(best, score)
    ensures CacheSound(valves, k, newCache, newBest) && cache.Keys <= newCache.Keys
    decreases TotalRounds - state.time, 0, 0
  {
    StepValueBounded(valves, k, state, p);
    var newState := Step(valves, state, p);
    score, newCache, newBest := SolveB(valves, k, newState, cache, best);
  }

  /** The arithmetic of one pass of the loop of `MaxOverPairs`: with `sofar` the
      best of the pairs seen, `v` the value of the next one, `m` the running
      maximum, `b` the best score before the call and `b'` after it, the running
      maximum and the best score still cover the pairs seen. */
  lemma MaxStep(sofar: nat, v: nat, m: nat, b: nat, score: nat, b': nat, best: nat)
    requires sofar <= Max(m, b) && b <= Max(best, m)
    requires v <= Max(score, b') && b <= b' <= Max(b, score)
    ensures Max(sofar, v) <= Max(Max(m, score), b')
    ensures b' <= Max(best, Max(m, score))
  {
  }

  /** The answer of `day16b`: both agents start on valve AA.  With the best score
      starting at 0, pruning and the cache lose nothing: the result is the exact
      value of the initial state. */
  method Day16b(valves: Valves, start: ValveId, k: nat) returns (result: nat)
    requires SearchGraph(valves) && start in valves
    ensures result == Value2(valves, k, CreateInitial(start, Some(start)))
  {
    var cache, best;
    result, cache, best := SolveB(valves, k, CreateInitial(start, Some(start)), map[], 0);
  }
}
