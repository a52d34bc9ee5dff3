/** The graph builder of src/day16.rs (`parse_input`): every name, a line's own
    name first and then its tunnel names, receives the next id the first time it
    is mentioned.  It starts from lines already matched by the regex. */
module Day16Graph {
  import opened Wrappers
  import opened ValveGraph

  /** The counter `valve_id` is a `u8`: its increment past 255 overflows, so at most
      255 names can be numbered. */
  const MaxNames: nat := 255

  /** Every id lies below the number of names. */
  predicate Bounded(m: map<string, nat>)
  {
    forall x :: x in m ==> m[x] < |m|
  }

  /** No two names share an id. */
  predicate Distinct(m: map<string, nat>)
  {
    forall x, y :: x in m && y in m && m[x] == m[y] ==> x == y
  }

  /** `name_to_id_map.entry(name).or_insert_with(..)`: a name seen for the first
      time gets the number of names already known; known names keep their id. */
  function Insert(m: map<string, nat>, x: string): map<string, nat>
  {
    if x in m then m else m[x := |m|]
  }

  /** The names `ts` inserted in order. */
  function InsertAll(m: map<string, nat>, ts: seq<string>): map<string, nat>
  {
    if |ts| == 0 then m else Insert(InsertAll(m, ts[..|ts| - 1]), ts[|ts| - 1])
  }

  /** The name map after one line: its name, then its tunnel names. */
  function LineIds(m: map<string, nat>, l: Line): map<string, nat>
  {
    InsertAll(Insert(m, l.name), l.tunnels)
  }

  /** `name_to_id_map` after the first n lines. */
  function NameMapAfter(lines: seq<Line>, n: nat): map<string, nat>
    requires n <= |lines|
  {
    if n == 0 then map[] else LineIds(NameMapAfter(lines, n - 1), lines[n - 1])
  }

  /** All names of the input with their final ids. */
  function NameIds(lines: seq<Line>): map<string, nat>
  {
    NameMapAfter(lines, |lines|)
  }

  /** The map `r` keeps every name of `m` under its id and is no smaller. */
  predicate Extends(m: map<string, nat>, r: map<string, nat>)
  {
    (forall y :: y in m ==> y in r && r[y] == m[y]) && |m| <= |r|
  }

  // ---- properties of the numbering ----

  /** Inserting keeps the known ids and the ids below the number of names; the
      new name is known afterwards. */
  lemma InsertFacts(m: map<string, nat>, x: string)
    ensures x in Insert(m, x) && Extends(m, Insert(m, x))
    ensures Bounded(m) ==> Bounded(Insert(m, x))
    ensures forall y :: y in Insert(m, x) ==> y in m || y == x
  {
  }

  lemma {:induction false} InsertAllFacts(m: map<string, nat>, ts: seq<string>)
    ensures Extends(m, InsertAll(m, ts))
    ensures Bounded(m) ==> Bounded(InsertAll(m, ts))
    ensures forall j :: 0 <= j < |ts| ==> ts[j] in InsertAll(m, ts)
    ensures forall y :: y in InsertAll(m, ts) ==> y in m || y in ts
  {
    if |ts| > 0 {
      var init := ts[..|ts| - 1];
      InsertAllFacts(m, init);
      InsertFacts(InsertAll(m, init), ts[|ts| - 1]);
      assert ts == init + [ts[|ts| - 1]];
    }
  }

  lemma LineIdsFacts(m: map<string, nat>, l: Line)
    ensures Extends(m, LineIds(m, l))
    ensures Bounded(m) ==> Bounded(LineIds(m, l))
    ensures l.name in LineIds(m, l)
    ensures forall j :: 0 <= j < |l.tunnels| ==> l.tunnels[j] in LineIds(m, l)
    ensures forall y :: y in LineIds(m, l) ==> y in m || y == l.name || y in l.tunnels
  {
    InsertFacts(m, l.name);
    InsertAllFacts(Insert(m, l.name), l.tunnels);
  }

  /** Every id is below the number of names. */
  lemma {:induction false} NameMapBounded(lines: seq<Line>, n: nat)
    requires n <= |lines|
    ensures Bounded(NameMapAfter(lines, n))
  {
    if n > 0 {
      NameMapBounded(lines, n - 1);
      LineIdsFacts(NameMapAfter(lines, n - 1), lines[n - 1]);
    }
  }

  lemma InsertKeepsDistinct(m: map<string, nat>, x: string)
    requires Bounded(m) && Distinct(m)
    ensures Distinct(Insert(m, x))
  {
  }

  lemma {:induction false} InsertAllKeepsDistinct(m: map<string, nat>, ts: seq<string>)
    requires Bounded(m) && Distinct(m)
    ensures Distinct(InsertAll(m, ts))
  {
    if |ts| > 0 {
      InsertAllKeepsDistinct(m, ts[..|ts| - 1]);
      InsertAllFacts(m, ts[..|ts| - 1]);
      InsertKeepsDistinct(InsertAll(m, ts[..|ts| - 1]), ts[|ts| - 1]);
    }
  }

  /** The ids of the whole input are distinct and below the number of names, so
      they are exactly 0, 1, ..., |names| - 1. */
  lemma {:induction false} NameMapDistinct(lines: seq<Line>, n: nat)
    requires n <= |lines|
    ensures Bounded(NameMapAfter(lines, n)) && Distinct(NameMapAfter(lines, n))
  {
    NameMapBounded(lines, n);
    if n > 0 {
      var m := NameMapAfter(lines, n - 1);
      NameMapDistinct(lines, n - 1);
      InsertKeepsDistinct(m, lines[n - 1].name);
      InsertFacts(m, lines[n - 1].name);
      InsertAllKeepsDistinct(Insert(m, lines[n - 1].name), lines[n - 1].tunnels);
    }
  }

  /** Inserting more names keeps every id already given. */
  lemma {:induction false} InsertAllPrefix(m: map<string, nat>, ts: seq<string>, j: nat)
    requires j <= |ts|
    ensures Extends(InsertAll(m, ts[..j]), InsertAll(m, ts))
    decreases |ts| - j
  {
    if j == |ts| {
      assert ts[..j] == ts;
    } else {
      InsertAllPrefix(m, ts, j + 1);
      assert ts[..j + 1][..j] == ts[..j];
      InsertFacts(InsertAll(m, ts[..j]), ts[j]);
    }
  }

  /** The names known after i lines keep their ids after n >= i lines. */
  lemma {:induction false} NameMapGrows(lines: seq<Line>, i: nat, n: nat)
    requires i <= n <= |lines|
    ensures Extends(NameMapAfter(lines, i), NameMapAfter(lines, n))
    decreases n - i
  {
    if i < n {
      NameMapGrows(lines, i, n - 1);
      LineIdsFacts(NameMapAfter(lines, n - 1), lines[n - 1]);
    }
  }

  /** The number of names only grows. */
  lemma NameCountGrows(lines: seq<Line>, i: nat, n: nat)
    requires i <= n <= |lines|
    ensures |NameMapAfter(lines, i)| <= |NameMapAfter(lines, n)|
  {
    NameMapGrows(lines, i, n);
  }

  /** A name gets an id exactly when some line names it or lists it as a tunnel. */
  lemma {:induction false} NameMapHasName(lines: seq<Line>, n: nat, x: string)
    requires n <= |lines|
    ensures x in NameMapAfter(lines, n) <==>
              exists i :: 0 <= i < n && (x == lines[i].name || x in lines[i].tunnels)
  {
    if n > 0 {
      NameMapHasName(lines, n - 1, x);
      LineIdsFacts(NameMapAfter(lines, n - 1), lines[n - 1]);
      if x in lines[n - 1].tunnels {
        var j :| 0 <= j < |lines[n - 1].tunnels| && lines[n - 1].tunnels[j] == x;
      }
    }
  }

  /** A name met for the first time gets the number of names known before it. */
  lemma FirstMentionGetsNextId(m: map<string, nat>, x: string)
    requires x !in m
    ensures Insert(m, x)[x] == |m|
  {
  }

  // ---- the valves ----

  /** The ids of names in a map with room for u8 ids. */
  function Lookup(m: map<string, nat>, names: seq<string>): (r: seq<ValveId>)
    requires forall j :: 0 <= j < |names| ==> names[j] in m && m[names[j]] < 256
    ensures |r| == |names| && forall j :: 0 <= j < |r| ==> r[j] == m[names[j]]
  {
    seq(|names|, j requires 0 <= j < |names| => m[names[j]] as ValveId)
  }

  /** The valve line i inserts, with the ids known once that line was read. */
  function ReadValve(lines: seq<Line>, i: nat): Valve
    requires i < |lines| && |NameMapAfter(lines, i + 1)| <= MaxNames
  {
    var m := NameMapAfter(lines, i + 1);
    LineIdsFacts(NameMapAfter(lines, i), lines[i]);
    NameMapBounded(lines, i + 1);
    Valve(lines[i].name, m[lines[i].name] as ValveId, lines[i].flowRate, Lookup(m, lines[i].tunnels))
  }

  /** `valves` after the first n lines: each line inserts its valve under its id. */
  function ValvesOf(lines: seq<Line>, n: nat): Valves
    requires n <= |lines| && |NameMapAfter(lines, n)| <= MaxNames
  {
    if n == 0 then map[]
    else
      NameMapGrows(lines, n - 1, n);
      var v := ReadValve(lines, n - 1);
      ValvesOf(lines, n - 1)[v.id := v]
  }

  /** The input numbers at most 255 names and mentions "AA". */
  predicate Parsable(lines: seq<Line>)
  {
    |NameIds(lines)| <= MaxNames && "AA" in NameIds(lines)
  }

  /** One name looked up with `entry(name).or_insert_with(..)`: an unknown name gets
      the counter, which is then incremented; `None` is the counter's overflow. */
  method LookupOrInsert(nameToId: map<string, nat>, valveId: nat, name: string)
    returns (result: Option<(map<string, nat>, nat, ValveId)>)
    requires valveId == |nameToId| <= MaxNames && Bounded(nameToId)
    ensures result.None? <==> name !in nameToId && valveId == MaxNames
    ensures result.Some? ==>
              && result.value.0 == Insert(nameToId, name)
              && result.value.1 == |result.value.0| <= MaxNames
              && result.value.2 == result.value.0[name]
  {
    if name in nameToId {
      return Some((nameToId, valveId, nameToId[name] as ValveId));
    }
    if valveId == MaxNames {
      return None;
    }
    var m := nameToId[name := valveId];
    return Some((m, valveId + 1, valveId as ValveId));
  }

  /** A map of 256 names reached while reading a line means the map after the
      line has more than 255 names. */
  lemma OverflowIsFinal(m: map<string, nat>, l: Line, j: nat)
    requires j <= |l.tunnels|
    requires |InsertAll(Insert(m, l.name), l.tunnels[..j])| > MaxNames
    ensures |LineIds(m, l)| > MaxNames
  {
    InsertAllPrefix(Insert(m, l.name), l.tunnels, j);
  }

  /** The body of the loop of `parse_input` for one line: its name, then its
      tunnel names, each numbered on first sight.  `None` is the overflow of the
      counter, which happens exactly when the line brings the names past 255. */
  method ReadLine(nameToId: map<string, nat>, valveId: nat, line: Line)
    returns (result: Option<(map<string, nat>, nat, Valve)>)
    requires valveId == |nameToId| <= MaxNames && Bounded(nameToId)
    ensures result.None? ==> |LineIds(nameToId, line)| > MaxNames
    ensures result.Some? ==>
              && result.value.0 == LineIds(nameToId, line)
              && result.value.1 == |result.value.0| <= MaxNames
              && Bounded(result.value.0)
              && line.name in result.value.0
              && (forall j :: 0 <= j < |line.tunnels| ==> line.tunnels[j] in result.value.0 && result.value.0[line.tunnels[j]] < 256)
              && result.value.2 == Valve(line.name, result.value.0[line.name] as ValveId, line.flowRate, Lookup(result.value.0, line.tunnels))
  {
    var found := LookupOrInsert(nameToId, valveId, line.name);
    if found.None? {
      assert line.tunnels[..0] == [];
      OverflowIsFinal(nameToId, line, 0);
      return None;
    }
    InsertFacts(nameToId, line.name);
    var m, count, id := found.value.0, found.value.1, found.value.2;
    var tunnels: seq<ValveId> := [];
    assert line.tunnels[..0] == [];
    for j := 0 to |line.tunnels|
      invariant m == InsertAll(Insert(nameToId, line.name), line.tunnels[..j]) && count == |m| <= MaxNames
      invariant Bounded(m)
      invariant line.name in m && id == m[line.name]
      invariant |tunnels| == j
      invariant forall k :: 0 <= k < j ==> line.tunnels[k] in m && tunnels[k] == m[line.tunnels[k]]
    {
      assert line.tunnels[..j + 1][..j] == line.tunnels[..j];
      var next := LookupOrInsert(m, count, line.tunnels[j]);
      if next.None? {
        OverflowIsFinal(nameToId, line, j + 1);
        return None;
      }
      InsertFacts(m, line.tunnels[j]);
      ghost var before := m;
      var tunnelId;
      m, count, tunnelId := next.value.0, next.value.1, next.value.2;
      tunnels := tunnels + [tunnelId];
      forall k | 0 <= k < j + 1
        ensures line.tunnels[k] in m && tunnels[k] == m[line.tunnels[k]]
      {
        if k < j {
          assert line.tunnels[k] in before;
        }
      }
    }
    assert line.tunnels[..|line.tunnels|] == line.tunnels;
    assert tunnels == Lookup(m, line.tunnels);
    return Some((m, count, Valve(line.name, id, line.flowRate, tunnels)));
  }

  /** `parse_input` over the captured lines.  `None` stands for the two panics:
      the id counter overflowing and "AA" missing from the name map. */
  method ParseInput(lines: seq<Line>) returns (result: Option<(Valves, ValveId)>)
    ensures result.Some? <==> Parsable(lines)
    ensures result.Some? ==> result.value.0 == ValvesOf(lines, |lines|) && result.value.1 as nat == NameIds(lines)["AA"]
  {
    var nameToId: map<string, nat> := map[];
    var valveId := 0;
    var valves: Valves := map[];
    for i := 0 to |lines|
      invariant nameToId == NameMapAfter(lines, i) && valveId == |nameToId| <= MaxNames
      invariant Bounded(nameToId)
      invariant valves == ValvesOf(lines, i)
    {
      var next := AddLine(lines, i, nameToId, valveId, valves);
      if next.None? {
        return None;
      }
      nameToId, valveId, valves := next.value.0, next.value.1, next.value.2;
    }
    if "AA" !in nameToId {
      return None;
    }
    return Some((valves, nameToId["AA"] as ValveId));
  }

  /** One pass of the loop of `parse_input`: line i read and its valve stored. */
  method AddLine(lines: seq<Line>, i: nat, nameToId: map<string, nat>, valveId: nat, valves: Valves)
    returns (result: Option<(map<string, nat>, nat, Valves)>)
    requires i < |lines|
    requires nameToId == NameMapAfter(lines, i) && valveId == |nameToId| <= MaxNames && Bounded(nameToId)
    requires valves == ValvesOf(lines, i)
    ensures result.None? ==> |NameIds(lines)| > MaxNames
    ensures result.Some? ==>
              && result.value.0 == NameMapAfter(lines, i + 1)
              && result.value.1 == |result.value.0| <= MaxNames
              && Bounded(result.value.0)
              && result.value.2 == ValvesOf(lines, i + 1)
  {
    var read := ReadLine(nameToId, valveId, lines[i]);
    if read.None? {
      NameMapGrows(lines, i + 1, |lines|);
      return None;
    }
    var valve := read.value.2;
    assert valve == ReadValve(lines, i);
    return Some((read.value.0, read.value.1, valves[valve.id := valve]));
  }

  /** The final id of line i's name. */
  function FinalId(lines: seq<Line>, i: nat): ValveId
    requires i < |lines| && |NameIds(lines)| <= MaxNames
  {
    LineIdsFacts(NameMapAfter(lines, i), lines[i]);
    NameMapGrows(lines, i + 1, |lines|);
    NameMapBounded(lines, |lines|);
    NameIds(lines)[lines[i].name] as ValveId
  }

  /** Line i's valve described with the final name map. */
  function FinalValve(lines: seq<Line>, i: nat): Valve
    requires i < |lines| && |NameIds(lines)| <= MaxNames
  {
    var m := NameIds(lines);
    LineIdsFacts(NameMapAfter(lines, i), lines[i]);
    NameMapGrows(lines, i + 1, |lines|);
    NameMapBounded(lines, |lines|);
    Valve(lines[i].name, FinalId(lines, i), lines[i].flowRate, Lookup(m, lines[i].tunnels))
  }

  /** The ids a line sees when it is read are its final ids. */
  lemma LineValveIsFinal(lines: seq<Line>, i: nat)
    requires i < |lines| && |NameIds(lines)| <= MaxNames
    ensures |NameMapAfter(lines, i + 1)| <= MaxNames
    ensures ReadValve(lines, i) == FinalValve(lines, i)
  {
    LineIdsFacts(NameMapAfter(lines, i), lines[i]);
    NameMapGrows(lines, i + 1, |lines|);
  }

  /** Every valve in the map after n lines is the final valve of one of those lines,
      stored under that valve's id. */
  lemma {:induction false} ValvesOfEntry(lines: seq<Line>, n: nat, id: ValveId) returns (i: nat)
    requires n <= |lines| && |NameIds(lines)| <= MaxNames && |NameMapAfter(lines, n)| <= MaxNames
    requires id in ValvesOf(lines, n)
    ensures i < n && FinalValve(lines, i).id == id && ValvesOf(lines, n)[id] == FinalValve(lines, i)
  {
    LineValveIsFinal(lines, n - 1);
    NameMapGrows(lines, n - 1, n);
    var v := ReadValve(lines, n - 1);
    assert ValvesOf(lines, n) == ValvesOf(lines, n - 1)[v.id := v];
    if id == v.id {
      i := n - 1;
    } else {
      assert id in ValvesOf(lines, n - 1);
      i := ValvesOfEntry(lines, n - 1, id);
    }
  }

  /** The valve of each of the first n lines has its id in the map after n lines. */
  lemma {:induction false} ValvesOfHasLine(lines: seq<Line>, n: nat, i: nat)
    requires n <= |lines| && |NameIds(lines)| <= MaxNames && |NameMapAfter(lines, n)| <= MaxNames
    requires i < n
    ensures FinalId(lines, i) in ValvesOf(lines, n)
  {
    NameCountGrows(lines, n - 1, n);
    if i == n - 1 {
      LineValveIsFinal(lines, i);
      ValvesOfLastKey(lines, n);
    } else {
      ValvesOfHasLine(lines, n - 1, i);
      ValvesOfKeysGrow(lines, n);
    }
  }

  /** The map after n lines holds the valve read from line n - 1 under its id. */
  lemma ValvesOfLastKey(lines: seq<Line>, n: nat)
    requires 0 < n <= |lines| && |NameMapAfter(lines, n)| <= MaxNames
    ensures ReadValve(lines, n - 1).id in ValvesOf(lines, n)
  {
  }

  /** Reading one more line keeps every id of the map. */
  lemma ValvesOfKeysGrow(lines: seq<Line>, n: nat)
    requires 0 < n <= |lines| && |NameMapAfter(lines, n)| <= MaxNames && |NameMapAfter(lines, n - 1)| <= MaxNames
    ensures ValvesOf(lines, n - 1).Keys <= ValvesOf(lines, n).Keys
  {
  }


  /** The parsed map is keyed by exactly the final ids of the line names, and the
      valve under an id is the valve of a line with that name: its own name and
      flow and the final ids of its tunnel names. */
  lemma ParsedValves(lines: seq<Line>)
    requires |NameIds(lines)| <= MaxNames
    ensures forall id :: id in ValvesOf(lines, |lines|) ==>
              exists i :: 0 <= i < |lines| && FinalValve(lines, i).id == id && ValvesOf(lines, |lines|)[id] == FinalValve(lines, i)
    ensures forall i :: 0 <= i < |lines| ==> FinalValve(lines, i).id in ValvesOf(lines, |lines|)
  {
    forall id | id in ValvesOf(lines, |lines|)
      ensures exists i :: 0 <= i < |lines| && FinalValve(lines, i).id == id && ValvesOf(lines, |lines|)[id] == FinalValve(lines, i)
    {
      var i := ValvesOfEntry(lines, |lines|, id);
    }
    forall i | 0 <= i < |lines| ensures FinalValve(lines, i).id in ValvesOf(lines, |lines|) {
      assert FinalValve(lines, i).id == FinalId(lines, i);
      ValvesOfHasLine(lines, |lines|, i);
    }
  }
}
