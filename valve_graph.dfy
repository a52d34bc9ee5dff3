/** The graph builder of src/day16a.rs and src/day16b.rs (`parse_input`; the two
    files hold the same code, day16b.rs also pairs each tunnel with the weight 1,
    which is never read).  It starts from lines already matched by the regex. */
module ValveGraph {
  import opened Wrappers

  /** `ValveId(u8)`. */
  type ValveId = x: nat | x < 256

  datatype Valve = Valve(name: string, id: ValveId, flowRate: nat, tunnels: seq<ValveId>)

  type Valves = map<ValveId, Valve>

  /** The three regex captures of one input line: name, flow rate and tunnel names. */
  datatype Line = Line(name: string, flowRate: nat, tunnels: seq<string>)

  /** The `u8` id counters panic on their increment past 255.  Useless ids start
      at 32, so 223 lines are numbered whatever their flows (224 useless lines
      would overflow). */
  const MaxLines: nat := 223

  /** Number of positive-flow lines among the first n. */
  function CountUseful(lines: seq<Line>, n: nat): (c: nat)
    requires n <= |lines|
    ensures c <= n
  {
    if n == 0 then 0 else CountUseful(lines, n - 1) + (if lines[n - 1].flowRate > 0 then 1 else 0)
  }

  function UsefulCount(lines: seq<Line>): nat
  {
    CountUseful(lines, |lines|)
  }

  /** The id line i receives: useful valves count up from 1, useless ones from 32. */
  function LineId(lines: seq<Line>, i: nat): ValveId
    requires i < |lines| <= MaxLines
  {
    if lines[i].flowRate == 0 then 32 + (i - CountUseful(lines, i)) else 1 + CountUseful(lines, i)
  }

  /** `name_to_id_map` after the first n lines (a repeated name keeps its latest id). */
  function NameMap(lines: seq<Line>, n: nat): map<string, ValveId>
    requires n <= |lines| <= MaxLines
  {
    if n == 0 then map[] else NameMap(lines, n - 1)[lines[n - 1].name := LineId(lines, n - 1)]
  }

  function Names(lines: seq<Line>): map<string, ValveId>
    requires |lines| <= MaxLines
  {
    NameMap(lines, |lines|)
  }

  /** Every tunnel name of every line is some line's name, and "AA" is one. */
  predicate Resolvable(lines: seq<Line>)
    requires |lines| <= MaxLines
  {
    && "AA" in Names(lines)
    && forall i, j :: 0 <= i < |lines| && 0 <= j < |lines[i].tunnels| ==> lines[i].tunnels[j] in Names(lines)
  }

  function Resolve(names: map<string, ValveId>, tunnels: seq<string>): (r: seq<ValveId>)
    requires forall j :: 0 <= j < |tunnels| ==> tunnels[j] in names
    ensures |r| == |tunnels| && forall j :: 0 <= j < |r| ==> r[j] == names[tunnels[j]]
  {
    seq(|tunnels|, j requires 0 <= j < |tunnels| => names[tunnels[j]])
  }

  function LineValve(lines: seq<Line>, i: nat): Valve
    requires i < |lines| <= MaxLines && Resolvable(lines)
  {
    Valve(lines[i].name, LineId(lines, i), lines[i].flowRate, Resolve(Names(lines), lines[i].tunnels))
  }

  /** The `valves` map after the first n lines have been inserted. */
  function ValvesAfter(lines: seq<Line>, n: nat): Valves
    requires n <= |lines| <= MaxLines && Resolvable(lines)
  {
    if n == 0 then map[] else ValvesAfter(lines, n - 1)[LineId(lines, n - 1) := LineValve(lines, n - 1)]
  }

  datatype Graph = Graph(valves: Valves, start: ValveId, usefulCount: nat)

  /** `parse_input` from the captured lines: ids first (counters `useful_valve_id`,
      `useless_valve_id`), then the tunnel names resolved through the name map.
      Each `unwrap` on a missing name is the `None` result. */
  method ParseInput(lines: seq<Line>) returns (result: Option<Graph>)
    requires |lines| <= MaxLines
    ensures result.Some? <==> Resolvable(lines)
    ensures result.Some? ==>
              result.value == Graph(ValvesAfter(lines, |lines|), Names(lines)["AA"], UsefulCount(lines))
  {
    var usefulValveId := 1;
    var uselessValveId := 32;
    var nameToId: map<string, ValveId> := map[];
    var ids: seq<ValveId> := [];
    for i := 0 to |lines|
      invariant usefulValveId == 1 + CountUseful(lines, i)
      invariant uselessValveId == 32 + (i - CountUseful(lines, i))
      invariant nameToId == NameMap(lines, i)
      invariant |ids| == i && forall k :: 0 <= k < i ==> ids[k] == LineId(lines, k)
    {
      var id;
      if lines[i].flowRate == 0 {
        id := uselessValveId;
        uselessValveId := uselessValveId + 1;
      } else {
        id := usefulValveId;
        usefulValveId := usefulValveId + 1;
      }
      nameToId := nameToId[lines[i].name := id];
      ids := ids + [id];
    }

    if !Resolvable(lines) {
      return None;
    }
    var valves: Valves := map[];
    for i := 0 to |lines|
      invariant valves == ValvesAfter(lines, i)
    {
      var tunnels: seq<ValveId> := [];
      for j := 0 to |lines[i].tunnels|
        invariant |tunnels| == j
        invariant forall k :: 0 <= k < j ==> tunnels[k] == nameToId[lines[i].tunnels[k]]
      {
        tunnels := tunnels + [nameToId[lines[i].tunnels[j]]];
      }
      assert tunnels == Resolve(Names(lines), lines[i].tunnels);
      valves := valves[ids[i] := Valve(lines[i].name, ids[i], lines[i].flowRate, tunnels)];
    }
    result := Some(Graph(valves, nameToId["AA"], usefulValveId - 1));
  }

  // ---- properties of the id assignment ----

  lemma {:induction false} CountUsefulMonotone(lines: seq<Line>, i: nat, j: nat)
    requires i <= j <= |lines|
    ensures CountUseful(lines, i) <= CountUseful(lines, j)
    ensures j - i >= CountUseful(lines, j) - CountUseful(lines, i)
    decreases j - i
  {
    if i < j {
      CountUsefulMonotone(lines, i, j - 1);
    }
  }

  /** Useful lines get ids 1..k in line order, useless ones ids 32.. in line order. */
  lemma LineIdRange(lines: seq<Line>, i: nat)
    requires i < |lines| <= MaxLines
    ensures lines[i].flowRate > 0 ==> 1 <= LineId(lines, i) <= UsefulCount(lines)
    ensures lines[i].flowRate == 0 ==> 32 <= LineId(lines, i) < 32 + |lines| - UsefulCount(lines)
  {
    CountUsefulMonotone(lines, i + 1, |lines|);
  }

  /** Ids strictly increase along the lines within each class, so no two lines of
      the same class share an id; with at most 31 useful valves the classes do not
      overlap either. */
  lemma LineIdsDistinct(lines: seq<Line>, i: nat, j: nat)
    requires i < j < |lines| <= MaxLines && UsefulCount(lines) <= 31
    ensures LineId(lines, i) != LineId(lines, j)
  {
    CountUsefulMonotone(lines, i + 1, j);
    LineIdRange(lines, i);
    LineIdRange(lines, j);
  }

  lemma {:induction false} NameMapValues(lines: seq<Line>, n: nat, name: string)
    requires n <= |lines| <= MaxLines && name in NameMap(lines, n)
    ensures exists i :: 0 <= i < n && lines[i].name == name && NameMap(lines, n)[name] == LineId(lines, i)
  {
    if lines[n - 1].name != name {
      NameMapValues(lines, n - 1, name);
    }
  }

  lemma {:induction false} NameMapKeys(lines: seq<Line>, n: nat, i: nat)
    requires i < n <= |lines| <= MaxLines
    ensures lines[i].name in NameMap(lines, n)
  {
    if i < n - 1 {
      NameMapKeys(lines, n - 1, i);
    }
  }

  /** Every key of the valve map is the id of some line whose valve is stored
      under it, and every line's id is a key. */
  lemma {:induction false} ValvesAfterEntries(lines: seq<Line>, n: nat)
    requires n <= |lines| <= MaxLines && Resolvable(lines)
    ensures forall id :: id in ValvesAfter(lines, n) ==>
              exists i :: 0 <= i < n && LineId(lines, i) == id && ValvesAfter(lines, n)[id] == LineValve(lines, i)
    ensures forall i :: 0 <= i < n ==> LineId(lines, i) in ValvesAfter(lines, n)
  {
    if n > 0 {
      ValvesAfterEntries(lines, n - 1);
      var prev := ValvesAfter(lines, n - 1);
      var last := LineId(lines, n - 1);
      assert ValvesAfter(lines, n) == prev[last := LineValve(lines, n - 1)];
      forall id | id in ValvesAfter(lines, n)
        ensures exists i :: 0 <= i < n && LineId(lines, i) == id && ValvesAfter(lines, n)[id] == LineValve(lines, i)
      {
        if id == last {
          assert LineId(lines, n - 1) == id && ValvesAfter(lines, n)[id] == LineValve(lines, n - 1);
        } else {
          var i :| 0 <= i < n - 1 && LineId(lines, i) == id && prev[id] == LineValve(lines, i);
          assert ValvesAfter(lines, n)[id] == LineValve(lines, i);
        }
      }
      forall i | 0 <= i < n ensures LineId(lines, i) in ValvesAfter(lines, n) {
        if i < n - 1 {
          assert LineId(lines, i) in prev;
        }
      }
    }
  }

  /** With at most 31 useful valves, each line's valve is stored under its own id. */
  lemma {:induction false} ValvesAfterContents(lines: seq<Line>, n: nat, i: nat)
    requires i < n <= |lines| <= MaxLines && Resolvable(lines) && UsefulCount(lines) <= 31
    ensures LineId(lines, i) in ValvesAfter(lines, n)
    ensures ValvesAfter(lines, n)[LineId(lines, i)] == LineValve(lines, i)
  {
    if i < n - 1 {
      LineIdsDistinct(lines, i, n - 1);
      ValvesAfterContents(lines, n - 1, i);
    }
  }

  /** The shape of a parsed graph the search relies on: each valve is stored
      under its own id, has at least one tunnel, and every tunnel leads to a valve
      of the map. */
  predicate WellFormed(valves: Valves)
  {
    forall id :: id in valves ==>
      && valves[id].id == id
      && |valves[id].tunnels| > 0
      && forall t :: t in valves[id].tunnels ==> t in valves
  }

  /** Every positive-flow valve has an id in 1..k. */
  predicate UsefulIdsWithin(valves: Valves, k: nat)
  {
    forall id :: id in valves && valves[id].flowRate > 0 ==> 1 <= id <= k
  }

  /** A parsed graph is well formed and its useful valves carry the ids 1..k,
      k being the returned count; this needs every line to name a tunnel, which
      the regex guarantees. */
  lemma ParsedGraphWellFormed(lines: seq<Line>)
    requires |lines| <= MaxLines && Resolvable(lines)
    requires forall i :: 0 <= i < |lines| ==> |lines[i].tunnels| > 0
    ensures WellFormed(ValvesAfter(lines, |lines|))
    ensures UsefulIdsWithin(ValvesAfter(lines, |lines|), UsefulCount(lines))
    ensures Names(lines)["AA"] in ValvesAfter(lines, |lines|)
  {
    var valves := ValvesAfter(lines, |lines|);
    ValvesAfterEntries(lines, |lines|);
    forall id | id in valves
      ensures valves[id].id == id && |valves[id].tunnels| > 0
      ensures forall t :: t in valves[id].tunnels ==> t in valves
      ensures valves[id].flowRate > 0 ==> 1 <= id <= UsefulCount(lines)
    {
      var i :| 0 <= i < |lines| && LineId(lines, i) == id && valves[id] == LineValve(lines, i);
      LineIdRange(lines, i);
      forall t | t in valves[id].tunnels ensures t in valves {
        var j :| 0 <= j < |valves[id].tunnels| && valves[id].tunnels[j] == t;
        NameMapValues(lines, |lines|, lines[i].tunnels[j]);
      }
    }
    NameMapValues(lines, |lines|, "AA");
  }

  /** The useful valves of a parsed graph: exactly the ids 1..k, all of them present. */
  predicate UsefulIdsAre(valves: Valves, k: nat)
  {
    && UsefulIdsWithin(valves, k)
    && forall i :: 1 <= i <= k ==> i in valves && valves[i].flowRate > 0
  }

  /** Every count below CountUseful(lines, n) is the count just before some useful line. */
  lemma {:induction false} UsefulLineReached(lines: seq<Line>, n: nat, c: nat) returns (j: nat)
    requires n <= |lines| && c < CountUseful(lines, n)
    ensures j < n && lines[j].flowRate > 0 && CountUseful(lines, j) == c
  {
    if c < CountUseful(lines, n - 1) {
      j := UsefulLineReached(lines, n - 1, c);
    } else {
      j := n - 1;
    }
  }

  /** With at most 31 useful lines, each of the ids 1..k is the id of a useful
      valve of the parsed graph. */
  lemma ParsedUsefulIds(lines: seq<Line>)
    requires |lines| <= MaxLines && Resolvable(lines)
    requires forall i :: 0 <= i < |lines| ==> |lines[i].tunnels| > 0
    requires UsefulCount(lines) <= 31
    ensures UsefulIdsAre(ValvesAfter(lines, |lines|), UsefulCount(lines))
  {
    var valves := ValvesAfter(lines, |lines|);
    ParsedGraphWellFormed(lines);
    forall i | 1 <= i <= UsefulCount(lines) ensures i in valves && valves[i].flowRate > 0 {
      var j := UsefulLineReached(lines, |lines|, i - 1);
      ValvesAfterContents(lines, |lines|, j);
    }
  }
}
