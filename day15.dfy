/** src/day15.rs: sensors, each with its closest beacon, and the Manhattan
    diamonds they rule out.  Parsing starts from the four numbers the line's
    pattern captures. */
module Day15 {
  import opened Wrappers
  import opened Strings

  type Pos = (int, int)

  /** `SensorAndBacon`; `distance` is the sensor's distance to its beacon. */
  datatype SensorAndBeacon = SensorAndBeacon(sensor: Pos, beacon: Pos, distance: int)

  function Abs(x: int): nat
  {
    if x < 0 then -x else x
  }

  /** `manhattan_distance`. */
  function ManhattanDistance(a: Pos, b: Pos): (d: nat)
    ensures d == 0 <==> a == b
    ensures Abs(a.0 - b.0) <= d && Abs(a.1 - b.1) <= d
  {
    Abs(a.0 - b.0) + Abs(a.1 - b.1)
  }

  lemma ManhattanIsMetric(a: Pos, b: Pos, c: Pos)
    ensures ManhattanDistance(a, b) == ManhattanDistance(b, a)
    ensures ManhattanDistance(a, b) == 0 <==> a == b
    ensures ManhattanDistance(a, c) <= ManhattanDistance(a, b) + ManhattanDistance(b, c)
  {
  }

  /** What `parse_line` establishes for every record. */
  predicate Valid(s: SensorAndBeacon)
  {
    s.distance == ManhattanDistance(s.sensor, s.beacon)
  }

  /** `parse_line` from the four captured numbers (sensor x, y, beacon x, y); an
      unparsable number panics. */
  function ParseLine(captures: seq<string>): (r: Option<SensorAndBeacon>)
    requires |captures| == 4
    ensures r.Some? <==> forall i :: 0 <= i < 4 ==> ParseInt(captures[i]).Some?
    ensures r.Some? ==> Valid(r.value)
    ensures r.Some? ==> r.value.sensor == (ParseInt(captures[0]).value, ParseInt(captures[1]).value)
    ensures r.Some? ==> r.value.beacon == (ParseInt(captures[2]).value, ParseInt(captures[3]).value)
  {
    match (ParseInt(captures[0]), ParseInt(captures[1]), ParseInt(captures[2]), ParseInt(captures[3]))
    case (Some(sensorX), Some(sensorY), Some(beaconX), Some(beaconY)) =>
      var sensor := (sensorX, sensorY);
      var beacon := (beaconX, beaconY);
      Some(SensorAndBeacon(sensor, beacon, ManhattanDistance(sensor, beacon)))
    case _ => None
  }

  /** A sensor's diamond covers pos. */
  predicate CoveredBy(s: SensorAndBeacon, pos: Pos)
  {
    ManhattanDistance(pos, s.sensor) <= s.distance
  }

  predicate Covered(pos: Pos, sensors: seq<SensorAndBeacon>)
  {
    exists i :: 0 <= i < |sensors| && CoveredBy(sensors[i], pos)
  }

  /** `is_covered_by_sensor`: the loop returns on the first covering sensor. */
  method IsCoveredBySensor(pos: Pos, sensors: seq<SensorAndBeacon>) returns (covered: bool)
    ensures covered <==> Covered(pos, sensors)
  {
    for i := 0 to |sensors|
      invariant forall k :: 0 <= k < i ==> !CoveredBy(sensors[k], pos)
    {
      var distanceToSensor := ManhattanDistance(pos, sensors[i].sensor);
      if distanceToSensor <= sensors[i].distance {
        return true;
      }
    }
    return false;
  }

  /** The ring just outside a sensor's diamond. */
  predicate OnRing(s: SensorAndBeacon, p: Pos)
  {
    ManhattanDistance(p, s.sensor) == s.distance + 1
  }

  /** `edge_points` as written: `for x in 0..distance` stops one short, so the
      four pushes give 4·(d+1) points (the two at x = 0 twice each), all on the
      ring, but never the ring's two points level with the sensor. */
  method EdgePoints(sensor: SensorAndBeacon) returns (points: seq<Pos>)
    requires Valid(sensor)
    ensures |points| == 4 * (sensor.distance + 1)
    ensures forall p: Pos :: p in points <==> OnRing(sensor, p) && Abs(p.0 - sensor.sensor.0) <= sensor.distance
    ensures (sensor.sensor.0 + sensor.distance + 1, sensor.sensor.1) !in points
    ensures (sensor.sensor.0 - sensor.distance - 1, sensor.sensor.1) !in points
  {
    var pos := sensor.sensor;
    points := [];
    var distance := sensor.distance + 1;
    for x := 0 to distance
      invariant |points| == 4 * x
      invariant forall p: Pos :: p in points <==> ManhattanDistance(p, pos) == distance && Abs(p.0 - pos.0) < x
    {
      var y := distance - x;
      points := points + [(pos.0 + x, pos.1 + y), (pos.0 + x, pos.1 - y), (pos.0 - x, pos.1 + y), (pos.0 - x, pos.1 - y)];
    }
  }

  /** `edge_points` with the loop running to `x = distance` inclusive: exactly the
      points of the ring. */
  method EdgePointsFull(sensor: SensorAndBeacon) returns (points: seq<Pos>)
    requires Valid(sensor)
    ensures |points| == 4 * (sensor.distance + 2)
    ensures forall p: Pos :: p in points <==> OnRing(sensor, p)
  {
    var pos := sensor.sensor;
    points := [];
    var distance := sensor.distance + 1;
    for x := 0 to distance + 1
      invariant |points| == 4 * x
      invariant forall p: Pos :: p in points <==> ManhattanDistance(p, pos) == distance && Abs(p.0 - pos.0) < x
    {
      var y := distance - x;
      points := points + [(pos.0 + x, pos.1 + y), (pos.0 + x, pos.1 - y), (pos.0 - x, pos.1 + y), (pos.0 - x, pos.1 - y)];
    }
  }

  /** A position that cannot hold a beacon: covered by the sensor, and not its
      own beacon. */
  predicate Excludes(s: SensorAndBeacon, p: Pos)
  {
    CoveredBy(s, p) && p != s.beacon
  }

  /** `points_on_line`: the positions of row y this sensor excludes, from left
      to right. */
  method PointsOnLine(y: int, sensor: SensorAndBeacon) returns (points: seq<Pos>)
    requires Valid(sensor)
    ensures forall i :: 0 <= i < |points| ==> points[i].1 == y && Excludes(sensor, points[i])
    ensures forall i, j :: 0 <= i < j < |points| ==> points[i].0 < points[j].0
    ensures forall p: Pos :: p.1 == y && Excludes(sensor, p) ==> p in points
  {
    points := [];
    var d := sensor.distance;
    for x := -d to d + 1
      invariant forall i :: 0 <= i < |points| ==>
                  points[i].1 == y && Excludes(sensor, points[i]) && points[i].0 < sensor.sensor.0 + x
      invariant forall i, j :: 0 <= i < j < |points| ==> points[i].0 < points[j].0
      invariant forall p: Pos :: p.1 == y && Excludes(sensor, p) && p.0 < sensor.sensor.0 + x ==> p in points
    {
      var thisPoint := (sensor.sensor.0 + x, y);
      if thisPoint == sensor.beacon {
        continue;
      }
      var distanceToSensor := ManhattanDistance(thisPoint, sensor.sensor);
      if distanceToSensor <= sensor.distance {
        points := points + [thisPoint];
      }
    }
  }

  /** The set `day15a` collects: the positions of row y some sensor excludes. */
  method CoveredPositions(sensors: seq<SensorAndBeacon>, y: int) returns (covered: set<Pos>)
    requires forall i :: 0 <= i < |sensors| ==> Valid(sensors[i])
    ensures forall p: Pos :: p in covered <==> p.1 == y && exists i :: 0 <= i < |sensors| && Excludes(sensors[i], p)
  {
    covered := {};
    for i := 0 to |sensors|
      invariant forall p: Pos :: p in covered <==> p.1 == y && exists k :: 0 <= k < i && Excludes(sensors[k], p)
    {
      var points := PointsOnLine(y, sensors[i]);
      covered := covered + set p | p in points;
    }
  }

  /** `day15a`: the number of positions in row 2000000 that cannot hold a beacon. */
  method Day15a(sensors: seq<SensorAndBeacon>) returns (count: nat)
    requires forall i :: 0 <= i < |sensors| ==> Valid(sensors[i])
    ensures exists covered: set<Pos> ::
              && count == |covered|
              && forall p: Pos :: p in covered <==> p.1 == 2000000 && exists i :: 0 <= i < |sensors| && Excludes(sensors[i], p)
  {
    var covered := CoveredPositions(sensors, 2000000);
    count := |covered|;
  }

  /** A ring point that `edge_points` as written yields: at most d columns
      from the sensor. */
  predicate OnWrittenRing(s: SensorAndBeacon, p: Pos)
  {
    OnRing(s, p) && Abs(p.0 - s.sensor.0) <= s.distance
  }

  /** `day15b`: a point of some sensor's `edge_points` that no sensor covers.
      The ring is the one the source builds, without the two points level with
      the sensor.  The parallel `find_any` may return any such point; the model
      searches the sensors in order. */
  method Day15b(sensors: seq<SensorAndBeacon>) returns (found: Option<Pos>)
    requires forall i :: 0 <= i < |sensors| ==> Valid(sensors[i])
    ensures found.Some? ==> !Covered(found.value, sensors)
    ensures found.Some? ==> exists i :: 0 <= i < |sensors| && OnWrittenRing(sensors[i], found.value)
    ensures found.None? ==> forall i, p: Pos :: 0 <= i < |sensors| && OnWrittenRing(sensors[i], p) ==> Covered(p, sensors)
  {
    for i := 0 to |sensors|
      invariant forall k, p: Pos :: 0 <= k < i && OnWrittenRing(sensors[k], p) ==> Covered(p, sensors)
    {
      var edges := EdgePoints(sensors[i]);
      for j := 0 to |edges|
        invariant forall jj :: 0 <= jj < j ==> Covered(edges[jj], sensors)
      {
        var covered := IsCoveredBySensor(edges[j], sensors);
        if !covered {
          assert edges[j] in edges;
          return Some(edges[j]);
        }
      }
      forall p | OnWrittenRing(sensors[i], p) ensures Covered(p, sensors) {
        var jj :| 0 <= jj < |edges| && edges[jj] == p;
      }
    }
    return None;
  }

  /** `day15b` over the corrected ring of `EdgePointsFull`: a point found lies
      on some ring, and none is found only when every ring point is covered. */
  method Day15bFull(sensors: seq<SensorAndBeacon>) returns (found: Option<Pos>)
    requires forall i :: 0 <= i < |sensors| ==> Valid(sensors[i])
    ensures found.Some? ==> !Covered(found.value, sensors)
    ensures found.Some? ==> exists i :: 0 <= i < |sensors| && OnRing(sensors[i], found.value)
    ensures found.None? ==> forall i, p: Pos :: 0 <= i < |sensors| && OnRing(sensors[i], p) ==> Covered(p, sensors)
  {
    for i := 0 to |sensors|
      invariant forall k, p: Pos :: 0 <= k < i && OnRing(sensors[k], p) ==> Covered(p, sensors)
    {
      var edges := EdgePointsFull(sensors[i]);
      for j := 0 to |edges|
        invariant forall jj :: 0 <= jj < j ==> Covered(edges[jj], sensors)
      {
        var covered := IsCoveredBySensor(edges[j], sensors);
        if !covered {
          return Some(edges[j]);
        }
      }
      forall p | OnRing(sensors[i], p) ensures Covered(p, sensors) {
        var jj :| 0 <= jj < |edges| && edges[jj] == p;
      }
    }
    return None;
  }

  /** The number `day15b` prints for the point found. */
  function TuningFrequency(p: Pos): int
  {
    p.0 * 4000000 + p.1
  }

  /** A covered position other than the sensor's beacon holds no beacon: any
      beacon there would be closer to the sensor than its closest one, or as
      close and different. */
  lemma ExcludedIsNotCloser(s: SensorAndBeacon, p: Pos)
    requires Valid(s) && Excludes(s, p)
    ensures ManhattanDistance(p, s.sensor) <= ManhattanDistance(s.beacon, s.sensor)
  {
  }

  /** The point of a ring is covered by no sensor nearer than its own ring
      distance: in particular not by the sensor whose ring it is on. */
  lemma RingIsOutsideOwnDiamond(s: SensorAndBeacon, p: Pos)
    requires OnRing(s, p)
    ensures !CoveredBy(s, p)
  {
  }
}
