/** The search state of src/day16a.rs and src/day16b.rs (both files hold the same
    `State` impl): time, released pressure, two cursors and the open-valve bits. */
module ValveState {
  import opened Wrappers
  import opened Bits32
  import opened ValveGraph

  /** Valve ids fit a `u8`; flow sums range over every possible id. */
  const IdBound: nat := 256

  datatype Action = Move(target: ValveId) | Open

  datatype State = State(
    time: nat,
    releasedPressure: nat,
    currentValve: ValveId,
    helperCurrentValve: ValveId,
    openValves: BitVec32)

  /** A graph the search can run on: well formed, and every valve that can be
      opened has a bit in the 32-bit set. */
  predicate SearchGraph(valves: Valves)
  {
    && WellFormed(valves)
    && forall id :: id in valves && valves[id].flowRate > 0 ==> id < 32
  }

  /** `State::create_initial`: time 1, nothing released, nothing open; a missing
      helper cursor sits at id 0. */
  function CreateInitial(currentValve: ValveId, helperCurrentValve: Option<ValveId>): (s: State)
    ensures s.time == 1 && s.releasedPressure == 0 && s.currentValve == currentValve
    ensures s.helperCurrentValve == (if helperCurrentValve.Some? then helperCurrentValve.value else 0)
    ensures forall i :: 0 <= i < 32 ==> !Get(s.openValves, i)
  {
    State(1, 0, currentValve, if helperCurrentValve.Some? then helperCurrentValve.value else 0, New())
  }

  /** `State::is_valve_open`: ids from 32 on have no bit and are never open. */
  function IsValveOpen(s: State, id: ValveId): (b: bool)
    ensures id >= 32 ==> !b
  {
    if id >= 32 then false else Get(s.openValves, id)
  }

  /** Flow of the valve `id` if it belongs to `ids` and its open status is `open`. */
  function Contribution(s: State, valves: Valves, ids: set<ValveId>, open: bool, id: ValveId): nat
  {
    if id in ids && id in valves && IsValveOpen(s, id) == open then valves[id].flowRate else 0
  }

  /** Sum of `Contribution` over the ids below n. */
  function FlowSum(s: State, valves: Valves, ids: set<ValveId>, open: bool, n: nat): nat
    requires n <= IdBound
  {
    if n == 0 then 0 else FlowSum(s, valves, ids, open, n - 1) + Contribution(s, valves, ids, open, n - 1)
  }

  /** The value `State::flow_rate` computes: total flow of the open valves. */
  function FlowRate(s: State, valves: Valves): nat
  {
    FlowSum(s, valves, valves.Keys, true, IdBound)
  }

  /** Total flow of the valves that are not open. */
  function ClosedFlow(s: State, valves: Valves): nat
  {
    FlowSum(s, valves, valves.Keys, false, IdBound)
  }

  function TotalBelow(valves: Valves, n: nat): nat
    requires n <= IdBound
  {
    if n == 0 then 0 else TotalBelow(valves, n - 1) + (if n - 1 in valves then valves[n - 1].flowRate else 0)
  }

  /** Sum of every valve's flow rate. */
  function TotalFlow(valves: Valves): nat
  {
    TotalBelow(valves, IdBound)
  }

  lemma {:induction false} FlowSumAdd(s: State, valves: Valves, ids: set<ValveId>, open: bool, n: nat, id: ValveId)
    requires n <= IdBound && id !in ids
    ensures FlowSum(s, valves, ids + {id}, open, n)
         == FlowSum(s, valves, ids, open, n) + (if id < n then Contribution(s, valves, {id}, open, id) else 0)
  {
    if n > 0 {
      FlowSumAdd(s, valves, ids, open, n - 1, id);
    }
  }

  lemma {:induction false} FlowSumEmpty(s: State, valves: Valves, open: bool, n: nat)
    requires n <= IdBound
    ensures FlowSum(s, valves, {}, open, n) == 0
  {
    if n > 0 {
      FlowSumEmpty(s, valves, open, n - 1);
    }
  }

  lemma {:induction false} OpenPlusClosedBelow(s: State, valves: Valves, n: nat)
    requires n <= IdBound
    ensures FlowSum(s, valves, valves.Keys, true, n) + FlowSum(s, valves, valves.Keys, false, n) == TotalBelow(valves, n)
  {
    if n > 0 {
      OpenPlusClosedBelow(s, valves, n - 1);
    }
  }

  /** The open and the closed valves together carry all the flow. */
  lemma OpenPlusClosed(s: State, valves: Valves)
    ensures FlowRate(s, valves) + ClosedFlow(s, valves) == TotalFlow(valves)
  {
    OpenPlusClosedBelow(s, valves, IdBound);
  }

  lemma {:induction false} FlowSumAbove32(s: State, valves: Valves, n: nat)
    requires 32 <= n <= IdBound
    ensures FlowSum(s, valves, valves.Keys, true, n) == FlowSum(s, valves, valves.Keys, true, 32)
  {
    if n > 32 {
      FlowSumAbove32(s, valves, n - 1);
    }
  }

  /** Only ids below 32 can be open, so the flow rate is the flow of the open
      valves among those ids. */
  lemma FlowRateBelow32(s: State, valves: Valves)
    ensures FlowRate(s, valves) == FlowSum(s, valves, valves.Keys, true, 32)
  {
    FlowSumAbove32(s, valves, IdBound);
  }

  /** With no bit set nothing flows. */
  lemma {:induction false} NothingOpenNoFlow(s: State, valves: Valves, n: nat)
    requires n <= IdBound
    requires forall i :: 0 <= i < 32 ==> !Get(s.openValves, i)
    ensures FlowSum(s, valves, valves.Keys, true, n) == 0
  {
    if n > 0 {
      NothingOpenNoFlow(s, valves, n - 1);
    }
  }

  /** `State::flow_rate`: a loop over the map's entries adding each open valve's flow. */
  method ComputeFlowRate(s: State, valves: Valves) returns (flowRate: nat)
    ensures flowRate == FlowRate(s, valves)
  {
    flowRate := 0;
    var rest := valves.Keys;
    FlowSumEmpty(s, valves, true, IdBound);
    assert valves.Keys - rest == {};
    while rest != {}
      invariant rest <= valves.Keys
      invariant flowRate == FlowSum(s, valves, valves.Keys - rest, true, IdBound)
      decreases |rest|
    {
      var id :| id in rest;
      FlowSumAdd(s, valves, valves.Keys - rest, true, IdBound, id);
      assert valves.Keys - rest + {id} == valves.Keys - (rest - {id});
      if IsValveOpen(s, id) {
        flowRate := flowRate + valves[id].flowRate;
      }
      rest := rest - {id};
    }
    assert valves.Keys - rest == valves.Keys;
  }

  /** The closed-valve loop of `futher_score_upper_bound`. */
  method ComputeClosedFlow(s: State, valves: Valves) returns (flow: nat)
    ensures flow == ClosedFlow(s, valves)
  {
    flow := 0;
    var rest := valves.Keys;
    FlowSumEmpty(s, valves, false, IdBound);
    assert valves.Keys - rest == {};
    while rest != {}
      invariant rest <= valves.Keys
      invariant flow == FlowSum(s, valves, valves.Keys - rest, false, IdBound)
      decreases |rest|
    {
      var id :| id in rest;
      FlowSumAdd(s, valves, valves.Keys - rest, false, IdBound, id);
      assert valves.Keys - rest + {id} == valves.Keys - (rest - {id});
      assert Contribution(s, valves, {id}, false, id) == if !IsValveOpen(s, id) then valves[id].flowRate else 0;
      if !IsValveOpen(s, id) {
        flow := flow + valves[id].flowRate;
      }
      rest := rest - {id};
    }
    assert valves.Keys - rest == valves.Keys;
  }

  /** The bound the two-agent search prunes with. */
  function UpperBound(s: State, valves: Valves, maxTime: nat): nat
    requires s.time <= maxTime
  {
    s.releasedPressure + TotalFlow(valves) * (maxTime - s.time)
  }

  /** `State::futher_score_upper_bound`: released pressure plus every valve's flow
      (open and closed) for each remaining round; it is never below what the
      current flow alone would still release.  `max_time - time` is a `u8`
      subtraction, so the time may not have passed `max_time`. */
  method ComputeUpperBound(s: State, valves: Valves, maxTime: nat) returns (bound: nat)
    requires s.time <= maxTime
    ensures bound == s.releasedPressure + TotalFlow(valves) * (maxTime - s.time)
    ensures bound >= s.releasedPressure + FlowRate(s, valves) * (maxTime - s.time)
  {
    var maxFlowRate := ComputeFlowRate(s, valves);
    var closed := ComputeClosedFlow(s, valves);
    maxFlowRate := maxFlowRate + closed;
    var remainingTime := maxTime - s.time;
    OpenPlusClosed(s, valves);
    bound := s.releasedPressure + maxFlowRate * remainingTime;
    assert FlowRate(s, valves) * remainingTime <= maxFlowRate * remainingTime;
  }

  /** `State::perform_actions`: adds the flow of the valves open before the step,
      applies my action and then the helper's (an `Open` sets the bit of that
      cursor's valve as it was before the step) and advances the time by one. */
  function PerformActions(s: State, myAction: Action, helperAction: Option<Action>, valves: Valves): (r: State)
    requires myAction.Open? ==> s.currentValve < 32
    requires helperAction == Some(Open) ==> s.helperCurrentValve < 32
    ensures r.time == s.time + 1
    ensures r.releasedPressure == s.releasedPressure + FlowRate(s, valves)
    ensures r.currentValve == if myAction.Move? then myAction.target else s.currentValve
    ensures r.helperCurrentValve ==
              if helperAction.Some? && helperAction.value.Move? then helperAction.value.target
              else s.helperCurrentValve
    ensures forall i :: 0 <= i < 32 ==>
              Get(r.openValves, i) ==
                (|| Get(s.openValves, i)
                 || (myAction.Open? && i == s.currentValve)
                 || (helperAction == Some(Open) && i == s.helperCurrentValve))
  {
    var afterMine :=
      match myAction
      case Move(id) => s.(currentValve := id)
      case Open => s.(openValves := Set(s.openValves, s.currentValve, true));
    var afterHelper :=
      match helperAction
      case None => afterMine
      case Some(Move(id)) => afterMine.(helperCurrentValve := id)
      case Some(Open) => afterMine.(openValves := Set(afterMine.openValves, s.helperCurrentValve, true));
    afterHelper.(releasedPressure := s.releasedPressure + FlowRate(s, valves), time := s.time + 1)
  }

  function Moves(tunnels: seq<ValveId>): (r: seq<Action>)
    ensures |r| == |tunnels| && forall j :: 0 <= j < |r| ==> r[j] == Move(tunnels[j])
  {
    seq(|tunnels|, j requires 0 <= j < |tunnels| => Move(tunnels[j]))
  }

  /** Actions offered to a cursor standing at `at`: `Open` first, only for a
      closed positive-flow valve, then one `Move` per tunnel in tunnel order. */
  function Actions(valves: Valves, s: State, at: ValveId): (r: seq<Action>)
    requires at in valves
    ensures Open in r <==> valves[at].flowRate > 0 && !IsValveOpen(s, at)
    ensures forall t :: Move(t) in r <==> t in valves[at].tunnels
    ensures |r| >= |valves[at].tunnels|
  {
    var opens := if valves[at].flowRate > 0 && !IsValveOpen(s, at) then [Open] else [];
    var r := opens + Moves(valves[at].tunnels);
    assert forall t :: Move(t) in r ==> Move(t) in Moves(valves[at].tunnels);
    r
  }

  /** The `ArrayVec` of actions built by pushes in `solve_a`/`solve_b`. */
  method CollectActions(valves: Valves, s: State, at: ValveId) returns (actions: seq<Action>)
    requires at in valves
    ensures actions == Actions(valves, s, at)
  {
    actions := [];
    var currentValve := valves[at];
    if currentValve.flowRate > 0 && !IsValveOpen(s, at) {
      actions := actions + [Open];
    }
    ghost var opens := actions;
    for j := 0 to |currentValve.tunnels|
      invariant actions == opens + Moves(currentValve.tunnels[..j])
    {
      actions := actions + [Move(currentValve.tunnels[j])];
    }
    assert currentValve.tunnels[..|currentValve.tunnels|] == currentValve.tunnels;
  }

  /** A legal action for the cursor at `at` keeps every cursor on a valve of the
      graph and every opened valve below 32. */
  lemma ActionsStayInGraph(valves: Valves, s: State, at: ValveId, a: Action)
    requires SearchGraph(valves) && at in valves && a in Actions(valves, s, at)
    ensures a.Move? ==> a.target in valves
    ensures a.Open? ==> at < 32 && valves[at].flowRate > 0 && !IsValveOpen(s, at)
  {
    if a.Move? {
      assert Move(a.target) in Actions(valves, s, at);
    }
  }
}
