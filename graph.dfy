/**
 * The time-expanded graph. Every (station, time) at which a train departs or
 * arrives is a vertex; each station also has an `Initial` vertex that fans out
 * to all its time vertices and a `Final` vertex they all fan into. Travel edges
 * join consecutive stops of the journeys that run on the query date, and wait
 * edges chain each station's time vertices in order of time.
 *
 * The graph is a map from (source id, target id) to weight, so adding an edge
 * that is already present overwrites its weight.
 */
module Graph {
  import opened Options
  import opened Ordering
  import opened Timetable

  /** Midnight of 2024-11-04, in seconds since 1970-01-01: the only date the
      graph is built for. */
  const QueryDate: int := 1730678400

  /** A time is in seconds since midnight. */
  datatype Vertex = PlaceTime(place: string, time: int) | Initial(place: string) | Final(place: string)

  /** The weight each kind of edge carries: fan edges weigh nothing, and an edge
      between two time vertices goes forward in time and weighs the time gap. */
  predicate WellWeighted(src: Vertex, dst: Vertex, w: int)
  {
    match (src, dst)
    case (Initial(p), PlaceTime(q, _)) => p == q && w == 0
    case (PlaceTime(p, _), Final(q)) => p == q && w == 0
    case (PlaceTime(_, t1), PlaceTime(_, t2)) => t1 < t2 && w == t2 - t1
    case _ => false
  }

  /** The endpoints of an edge fix its weight, so writing it again changes nothing. */
  lemma WeightDetermined(src: Vertex, dst: Vertex, w1: int, w2: int)
    requires WellWeighted(src, dst, w1) && WellWeighted(src, dst, w2)
    ensures w1 == w2 && w1 >= 0
  {
  }

  // ---------------------------------------------------------------------------
  // Invariants, stated on the field values

  /** `vert2idx` and `idx2vert` are inverse and the ids in use are `0..count-1`. */
  ghost predicate Numbered(vert2idx: map<Vertex, nat>, idx2vert: map<nat, Vertex>, count: nat)
  {
    && (forall v :: v in vert2idx ==> vert2idx[v] in idx2vert && idx2vert[vert2idx[v]] == v)
    && (forall i :: i in idx2vert ==> i < count && idx2vert[i] in vert2idx && vert2idx[idx2vert[i]] == i)
    && (forall i: nat :: i < count ==> i in idx2vert)
  }

  /** Every edge joins two numbered vertices and carries the weight its kind demands. */
  ghost predicate EdgesWellWeighted(idx2vert: map<nat, Vertex>, graph: map<(nat, nat), int>)
  {
    forall e :: e in graph ==>
      e.0 in idx2vert && e.1 in idx2vert && WellWeighted(idx2vert[e.0], idx2vert[e.1], graph[e])
  }

  /** `a -> b` is an edge of the graph. */
  ghost predicate HasArc(vert2idx: map<Vertex, nat>, graph: map<(nat, nat), int>, a: Vertex, b: Vertex)
  {
    a in vert2idx && b in vert2idx && (vert2idx[a], vert2idx[b]) in graph
  }

  /** Every time vertex has its station's `Initial` and `Final` vertices and the
      two fan edges. */
  ghost predicate Fanned(vert2idx: map<Vertex, nat>, graph: map<(nat, nat), int>)
  {
    forall v :: v in vert2idx && v.PlaceTime? ==>
      HasArc(vert2idx, graph, Initial(v.place), v) && HasArc(vert2idx, graph, v, Final(v.place))
  }

  /** The edges between two time vertices, as pairs of vertices. */
  function TimeArc(a: Vertex, b: Vertex): set<(Vertex, Vertex)>
  {
    if a.PlaceTime? && b.PlaceTime? then {(a, b)} else {}
  }

  /** Every edge between two time vertices is listed in `arcs`. */
  ghost predicate ArcsRecorded(idx2vert: map<nat, Vertex>, graph: map<(nat, nat), int>, arcs: set<(Vertex, Vertex)>)
  {
    forall e :: e in graph && e.0 in idx2vert && e.1 in idx2vert ==> TimeArc(idx2vert[e.0], idx2vert[e.1]) <= arcs
  }

  /** Ids stay assigned and edges stay in place with their weights. */
  ghost predicate Grows(v1: map<Vertex, nat>, g1: map<(nat, nat), int>, v2: map<Vertex, nat>, g2: map<(nat, nat), int>)
  {
    && (forall v :: v in v1 ==> v in v2 && v2[v] == v1[v])
    && (forall e :: e in g1 ==> e in g2 && g2[e] == g1[e])
  }

  /** The times at which a station has a vertex. */
  ghost function StationTimes(vert2idx: map<Vertex, nat>, s: string): set<int>
  {
    set v | v in vert2idx && v.PlaceTime? && v.place == s :: v.time
  }

  /** `t2` directly follows `t1` among the times `ts`. */
  ghost predicate Consecutive(ts: set<int>, t1: int, t2: int)
  {
    t1 in ts && t2 in ts && t1 < t2 && forall t :: t in ts ==> !(t1 < t < t2)
  }

  /** `a -> b` is a wait edge of one of `stations`: both at the station, `b` the
      station's next time after `a`. */
  ghost predicate WaitArc(stations: seq<string>, vert2idx: map<Vertex, nat>, a: Vertex, b: Vertex)
  {
    && a.PlaceTime? && b.PlaceTime? && a.place == b.place && a.place in stations
    && Consecutive(StationTimes(vert2idx, a.place), a.time, b.time)
  }

  /** All wait edges of `stations`. */
  ghost function WaitArcs(vert2idx: map<Vertex, nat>, stations: seq<string>): set<(Vertex, Vertex)>
  {
    set a, b | a in vert2idx && b in vert2idx && WaitArc(stations, vert2idx, a, b) :: (a, b)
  }

  /** The wait edges of two lists of stations together are those of their concatenation. */
  lemma WaitArcsConcat(vert2idx: map<Vertex, nat>, xs: seq<string>, ys: seq<string>)
    ensures WaitArcs(vert2idx, xs + ys) == WaitArcs(vert2idx, xs) + WaitArcs(vert2idx, ys)
  {
    forall a, b ensures WaitArc(xs + ys, vert2idx, a, b) <==> WaitArc(xs, vert2idx, a, b) || WaitArc(ys, vert2idx, a, b) {
      assert a.place in xs + ys <==> a.place in xs || a.place in ys;
    }
  }

  /** The edges that chain the first `n + 1` times of `ts` at station `s`. */
  ghost function ChainArcs(s: string, ts: seq<int>, n: int): set<(Vertex, Vertex)>
    requires n < |ts|
    decreases n
  {
    if n <= 0 then {} else ChainArcs(s, ts, n - 1) + {(PlaceTime(s, ts[n - 1]), PlaceTime(s, ts[n]))}
  }

  /** The chain edges written so far stay in place as the graph grows, and the
      edge just written extends them. */
  lemma ChainSurvives(vert2idx: map<Vertex, nat>, g1: map<(nat, nat), int>, g2: map<(nat, nat), int>,
                      s: string, ts: seq<int>, n: nat)
    requires Grows(vert2idx, g1, vert2idx, g2) && n + 1 < |ts|
    requires forall i :: 0 <= i < n ==> HasArc(vert2idx, g1, PlaceTime(s, ts[i]), PlaceTime(s, ts[i + 1]))
    requires HasArc(vert2idx, g2, PlaceTime(s, ts[n]), PlaceTime(s, ts[n + 1]))
    ensures forall i :: 0 <= i < n + 1 ==> HasArc(vert2idx, g2, PlaceTime(s, ts[i]), PlaceTime(s, ts[i + 1]))
  {
    forall i | 0 <= i < n ensures HasArc(vert2idx, g2, PlaceTime(s, ts[i]), PlaceTime(s, ts[i + 1])) {
      assert HasArc(vert2idx, g1, PlaceTime(s, ts[i]), PlaceTime(s, ts[i + 1]));
    }
  }

  /** A pair is in the chain exactly when it joins two neighbours of the sequence. */
  lemma {:induction false} ChainArcsMembers(s: string, ts: seq<int>, n: int, a: Vertex, b: Vertex)
    requires n < |ts|
    ensures (a, b) in ChainArcs(s, ts, n) <==>
              exists k :: 0 <= k < n && a == PlaceTime(s, ts[k]) && b == PlaceTime(s, ts[k + 1])
    decreases n
  {
    if n > 0 {
      ChainArcsMembers(s, ts, n - 1, a, b);
      if a == PlaceTime(s, ts[n - 1]) && b == PlaceTime(s, ts[n]) {
        assert 0 <= n - 1 < n && a == PlaceTime(s, ts[n - 1]) && b == PlaceTime(s, ts[n]);
      }
    }
  }

  /** A station without times has no wait edges. */
  lemma NoTimesNoWaits(vert2idx: map<Vertex, nat>, s: string)
    requires StationTimes(vert2idx, s) == {}
    ensures WaitArcs(vert2idx, [s]) == {}
  {
  }

  /** Once each time of a station has an edge to the next in ascending order,
      every wait edge of the station is in the graph. */
  lemma ChainCoversWaits(vert2idx: map<Vertex, nat>, graph: map<(nat, nat), int>, s: string, ts: seq<int>)
    requires StrictlyIncreasing(ts)
    requires forall t :: t in StationTimes(vert2idx, s) <==> t in ts
    requires forall k :: 0 <= k < |ts| - 1 ==> HasArc(vert2idx, graph, PlaceTime(s, ts[k]), PlaceTime(s, ts[k + 1]))
    ensures forall t1, t2 :: Consecutive(StationTimes(vert2idx, s), t1, t2) ==>
              HasArc(vert2idx, graph, PlaceTime(s, t1), PlaceTime(s, t2))
  {
    forall t1, t2 | Consecutive(StationTimes(vert2idx, s), t1, t2)
      ensures HasArc(vert2idx, graph, PlaceTime(s, t1), PlaceTime(s, t2))
    {
      var k := AdjacentAreNeighbours(ts, StationTimes(vert2idx, s), t1, t2);
    }
  }

  /** Chaining a station's times in ascending order gives exactly its wait edges. */
  lemma ChainIsWaits(vert2idx: map<Vertex, nat>, s: string, ts: seq<int>)
    requires |ts| > 0 && StrictlyIncreasing(ts)
    requires forall t :: t in StationTimes(vert2idx, s) <==> t in ts
    ensures ChainArcs(s, ts, |ts| - 1) == WaitArcs(vert2idx, [s])
  {
    var times := StationTimes(vert2idx, s);
    forall p | p in ChainArcs(s, ts, |ts| - 1) || p in WaitArcs(vert2idx, [s])
      ensures p in ChainArcs(s, ts, |ts| - 1) <==> p in WaitArcs(vert2idx, [s])
    {
      var (a, b) := p;
      ChainArcsMembers(s, ts, |ts| - 1, a, b);
      if (a, b) in ChainArcs(s, ts, |ts| - 1) {
        var k :| 0 <= k < |ts| - 1 && a == PlaceTime(s, ts[k]) && b == PlaceTime(s, ts[k + 1]);
        assert a.time in times && b.time in times;
        forall t | t in times ensures !(a.time < t < b.time) {
          NeighboursAreAdjacent(ts, times, k, t);
        }
        assert a in vert2idx && b in vert2idx;
      }
      if (a, b) in WaitArcs(vert2idx, [s]) {
        assert WaitArc([s], vert2idx, a, b);
        var k := AdjacentAreNeighbours(ts, times, a.time, b.time);
      }
    }
  }

  // ---------------------------------------------------------------------------
  // Travel legs

  /** `new` skips a pair of passings whose arrival is not after the departure
      under `Option` ordering, where `None` comes first. */
  predicate Advances(from: Passing, to: Passing)
  {
    !OptLe(to.arrival, from.departure)
  }

  /** Passing `i` and its successor give a travel edge. */
  predicate IsLegOf(j: Journey, i: int)
  {
    0 <= i < |j.passings| - 1 && Advances(j.passings[i], j.passings[i + 1])
  }

  /** What `new` unwraps and indexes for a journey that runs: `len() - 1` does
      not underflow, each departure it unwraps is present and each stop index
      names a stop. */
  predicate Traversable(stops: seq<string>, j: Journey)
  {
    && |j.passings| > 0
    && forall i :: 0 <= i < |j.passings| - 1 && IsLegOf(j, i) ==>
         j.passings[i].departure.Some? && j.passings[i].stopPoint < |stops| && j.passings[i + 1].stopPoint < |stops|
  }

  function LegSource(stops: seq<string>, j: Journey, i: int): Vertex
    requires Traversable(stops, j) && IsLegOf(j, i)
  {
    PlaceTime(stops[j.passings[i].stopPoint], j.passings[i].departure.value)
  }

  function LegTarget(stops: seq<string>, j: Journey, i: int): Vertex
    requires Traversable(stops, j) && IsLegOf(j, i)
  {
    PlaceTime(stops[j.passings[i + 1].stopPoint], j.passings[i + 1].arrival.value)
  }

  /** A leg goes forward in time, so its edge weighs more than nothing. */
  lemma LegGoesForward(stops: seq<string>, j: Journey, i: int)
    requires Traversable(stops, j) && IsLegOf(j, i)
    ensures LegSource(stops, j, i).time < LegTarget(stops, j, i).time
    ensures WellWeighted(LegSource(stops, j, i), LegTarget(stops, j, i),
                         j.passings[i + 1].arrival.value - j.passings[i].departure.value)
  {
  }

  /** The journey at `ji` of connection `ci` runs on the query date, so `new`
      walks its passings. */
  ghost predicate Runs(mc: MultiConnection, ci: int, ji: int)
  {
    && 0 <= ci < |mc.connections| && 0 <= ji < |mc.connections[ci].journeys|
    && var c := mc.connections[ci];
       var j := c.journeys[ji];
       && DaysIndexed(c.operatingPeriods, c.dayTypes, j.days)
       && RunsOn(c.operatingPeriods, c.dayTypes, j, QueryDate)
       && Traversable(mc.stops, j)
  }

  /** That journey runs and has a leg at `i`. */
  ghost predicate IsLeg(mc: MultiConnection, ci: int, ji: int, i: int)
  {
    Runs(mc, ci, ji) && IsLegOf(mc.connections[ci].journeys[ji], i)
  }

  /** The travel edge of a leg, as a pair of vertices. */
  ghost function LegArc(mc: MultiConnection, ci: int, ji: int, i: int): (Vertex, Vertex)
    requires IsLeg(mc, ci, ji, i)
  {
    var j := mc.connections[ci].journeys[ji];
    (LegSource(mc.stops, j, i), LegTarget(mc.stops, j, i))
  }

  /** `a -> b` is the travel edge of some leg. */
  ghost predicate TravelArc(mc: MultiConnection, a: Vertex, b: Vertex)
  {
    exists ci, ji, i :: IsLeg(mc, ci, ji, i) && LegArc(mc, ci, ji, i) == (a, b)
  }

  /** `v` is an end of some leg. */
  ghost predicate LegEnd(mc: MultiConnection, v: Vertex)
  {
    exists ci, ji, i :: IsLeg(mc, ci, ji, i) && (LegArc(mc, ci, ji, i).0 == v || LegArc(mc, ci, ji, i).1 == v)
  }

  /** The vertices the graph ends up with: the ends of the legs and, for each of
      their stations, the `Initial` and `Final` vertex. */
  ghost predicate GraphVertex(mc: MultiConnection, v: Vertex)
  {
    match v
    case PlaceTime(_, _) => LegEnd(mc, v)
    case Initial(p) => exists t :: LegEnd(mc, PlaceTime(p, t))
    case Final(p) => exists t :: LegEnd(mc, PlaceTime(p, t))
  }

  /** What `new` needs of its input: the day types of every journey index its
      calendar, and every journey that runs on the query date is traversable. */
  ghost predicate Buildable(mc: MultiConnection)
  {
    forall ci, ji :: 0 <= ci < |mc.connections| && 0 <= ji < |mc.connections[ci].journeys| ==>
      var c := mc.connections[ci];
      && DaysIndexed(c.operatingPeriods, c.dayTypes, c.journeys[ji].days)
      && (RunsOn(c.operatingPeriods, c.dayTypes, c.journeys[ji], QueryDate) ==> Traversable(mc.stops, c.journeys[ji]))
  }

  /** The vertices `get_or_insert` brings in for `v` when it is new. */
  function Introduced(v: Vertex): set<Vertex>
  {
    if v.PlaceTime? then {v, Initial(v.place), Final(v.place)} else {v}
  }

  /** The vertices of a travel edge, and their stations' anchors. */
  function Touched(a: Vertex, b: Vertex): set<Vertex>
  {
    Introduced(a) + Introduced(b)
  }

  /** The travel edges of the first `n` passing pairs of a journey. */
  ghost function LegArcs(stops: seq<string>, j: Journey, n: int): set<(Vertex, Vertex)>
    requires Traversable(stops, j)
    decreases n
  {
    if n <= 0 then {}
    else LegArcs(stops, j, n - 1)
         + if IsLegOf(j, n - 1) then {(LegSource(stops, j, n - 1), LegTarget(stops, j, n - 1))} else {}
  }

  /** The vertices the travel edges of the first `n` passing pairs bring in. */
  ghost function LegVertices(stops: seq<string>, j: Journey, n: int): set<Vertex>
    requires Traversable(stops, j)
    decreases n
  {
    if n <= 0 then {}
    else LegVertices(stops, j, n - 1)
         + if IsLegOf(j, n - 1) then Touched(LegSource(stops, j, n - 1), LegTarget(stops, j, n - 1)) else {}
  }

  /** The vertices that the travel edges `arcs` bring in, with their stations'
      anchors. */
  ghost function TouchedBy(arcs: set<(Vertex, Vertex)>): set<Vertex>
  {
    set p, v | p in arcs && v in Touched(p.0, p.1) :: v
  }

  lemma TouchedByUnion(x: set<(Vertex, Vertex)>, y: set<(Vertex, Vertex)>)
    ensures TouchedBy(x + y) == TouchedBy(x) + TouchedBy(y)
  {
  }

  /** The vertices of a journey's legs are those its travel edges bring in. */
  lemma {:induction false} LegVerticesTouched(stops: seq<string>, j: Journey, n: int)
    requires Traversable(stops, j)
    ensures LegVertices(stops, j, n) == TouchedBy(LegArcs(stops, j, n))
    decreases n
  {
    if n > 0 {
      LegVerticesTouched(stops, j, n - 1);
      var step := if IsLegOf(j, n - 1) then {(LegSource(stops, j, n - 1), LegTarget(stops, j, n - 1))} else {};
      TouchedByUnion(LegArcs(stops, j, n - 1), step);
      if IsLegOf(j, n - 1) {
        var a, b := LegSource(stops, j, n - 1), LegTarget(stops, j, n - 1);
        assert TouchedBy({(a, b)}) == Touched(a, b) by {
          forall v | v in Touched(a, b) ensures v in TouchedBy({(a, b)}) {
            assert (a, b) in {(a, b)};
          }
        }
      } else {
        assert TouchedBy({}) == {};
      }
    }
  }

  /** A pair is a travel edge of the first `n` passing pairs exactly when one of
      those pairs is a leg with that edge. */
  lemma {:induction false} LegArcsMembers(stops: seq<string>, j: Journey, n: int, p: (Vertex, Vertex))
    requires Traversable(stops, j)
    ensures p in LegArcs(stops, j, n) <==>
              exists i :: 0 <= i < n && IsLegOf(j, i) && (LegSource(stops, j, i), LegTarget(stops, j, i)) == p
    decreases n
  {
    if n > 0 {
      LegArcsMembers(stops, j, n - 1, p);
      if IsLegOf(j, n - 1) && (LegSource(stops, j, n - 1), LegTarget(stops, j, n - 1)) == p {
        assert 0 <= n - 1 < n;
      }
    }
  }

  /** The travel edges a journey gives: those of its legs if it runs, none otherwise. */
  ghost function JourneyArcs(mc: MultiConnection, ci: int, ji: int): set<(Vertex, Vertex)>
    requires 0 <= ci < |mc.connections| && 0 <= ji < |mc.connections[ci].journeys|
  {
    var j := mc.connections[ci].journeys[ji];
    if Runs(mc, ci, ji) then LegArcs(mc.stops, j, |j.passings| - 1) else {}
  }

  /** `(cn, jn)` is a point in the journey loops of `new`: journey `jn` of
      connection `cn` is next, or `cn` is past the last connection. */
  ghost predicate Position(mc: MultiConnection, cn: int, jn: int)
  {
    && 0 <= cn <= |mc.connections| && 0 <= jn
    && (cn < |mc.connections| ==> jn <= |mc.connections[cn].journeys|)
    && (cn == |mc.connections| ==> jn == 0)
  }

  /** Journey `ji` of connection `ci` is handled before the point `(cn, jn)`. */
  predicate Before(ci: int, ji: int, cn: int, jn: int)
  {
    ci < cn || (ci == cn && ji < jn)
  }

  /** The travel edges of the journeys handled before the point `(cn, jn)`. */
  ghost function ArcsBefore(mc: MultiConnection, cn: int, jn: int): set<(Vertex, Vertex)>
    requires Position(mc, cn, jn)
    decreases cn, jn
  {
    if jn > 0 then ArcsBefore(mc, cn, jn - 1) + JourneyArcs(mc, cn, jn - 1)
    else if cn > 0 then ArcsBefore(mc, cn - 1, |mc.connections[cn - 1].journeys|)
    else {}
  }

  /** A journey's travel edges are the edges of its legs. */
  lemma JourneyArcsMembers(mc: MultiConnection, ci: int, ji: int, p: (Vertex, Vertex))
    requires 0 <= ci < |mc.connections| && 0 <= ji < |mc.connections[ci].journeys|
    ensures p in JourneyArcs(mc, ci, ji) <==> exists i :: IsLeg(mc, ci, ji, i) && LegArc(mc, ci, ji, i) == p
  {
    var j := mc.connections[ci].journeys[ji];
    if Runs(mc, ci, ji) {
      LegArcsMembers(mc.stops, j, |j.passings| - 1, p);
      if p in JourneyArcs(mc, ci, ji) {
        var i :| 0 <= i < |j.passings| - 1 && IsLegOf(j, i) && (LegSource(mc.stops, j, i), LegTarget(mc.stops, j, i)) == p;
        assert IsLeg(mc, ci, ji, i) && LegArc(mc, ci, ji, i) == p;
      }
    }
  }

  /** `p` is the edge of a leg of a journey handled before the point `(cn, jn)`. */
  ghost predicate LegArcBefore(mc: MultiConnection, cn: int, jn: int, p: (Vertex, Vertex))
  {
    exists ci, ji, i :: IsLeg(mc, ci, ji, i) && Before(ci, ji, cn, jn) && LegArc(mc, ci, ji, i) == p
  }

  /** The step from one journey to the next. */
  lemma ArcsBeforeStep(mc: MultiConnection, cn: int, jn: int, p: (Vertex, Vertex))
    requires Position(mc, cn, jn) && jn > 0
    requires p in ArcsBefore(mc, cn, jn - 1) <==> LegArcBefore(mc, cn, jn - 1, p)
    ensures p in ArcsBefore(mc, cn, jn) <==> LegArcBefore(mc, cn, jn, p)
  {
    JourneyArcsMembers(mc, cn, jn - 1, p);
    if p in ArcsBefore(mc, cn, jn - 1) {
      var ci, ji, i :| IsLeg(mc, ci, ji, i) && Before(ci, ji, cn, jn - 1) && LegArc(mc, ci, ji, i) == p;
      assert Before(ci, ji, cn, jn);
    }
    if p in JourneyArcs(mc, cn, jn - 1) {
      var i :| IsLeg(mc, cn, jn - 1, i) && LegArc(mc, cn, jn - 1, i) == p;
      assert Before(cn, jn - 1, cn, jn);
    }
    if LegArcBefore(mc, cn, jn, p) {
      var ci, ji, i :| IsLeg(mc, ci, ji, i) && Before(ci, ji, cn, jn) && LegArc(mc, ci, ji, i) == p;
      if !Before(ci, ji, cn, jn - 1) {
        assert ci == cn && ji == jn - 1;
      }
    }
  }

  /** The step from the end of one connection to the start of the next. */
  lemma ArcsBeforeNext(mc: MultiConnection, cn: int, p: (Vertex, Vertex))
    requires Position(mc, cn, 0) && cn > 0
    requires p in ArcsBefore(mc, cn - 1, |mc.connections[cn - 1].journeys|)
             <==> LegArcBefore(mc, cn - 1, |mc.connections[cn - 1].journeys|, p)
    ensures p in ArcsBefore(mc, cn, 0) <==> LegArcBefore(mc, cn, 0, p)
  {
    var last := |mc.connections[cn - 1].journeys|;
    assert ArcsBefore(mc, cn, 0) == ArcsBefore(mc, cn - 1, last);
    if LegArcBefore(mc, cn - 1, last, p) {
      var ci, ji, i :| IsLeg(mc, ci, ji, i) && Before(ci, ji, cn - 1, last) && LegArc(mc, ci, ji, i) == p;
      assert Before(ci, ji, cn, 0);
    }
    if LegArcBefore(mc, cn, 0, p) {
      var ci, ji, i :| IsLeg(mc, ci, ji, i) && Before(ci, ji, cn, 0) && LegArc(mc, ci, ji, i) == p;
      assert ci < cn && ji < |mc.connections[ci].journeys|;
      assert Before(ci, ji, cn - 1, last);
    }
  }

  /** The travel edges gathered up to a point are the edges of the legs of the
      journeys handled before it. */
  lemma {:induction false} ArcsBeforeMembers(mc: MultiConnection, cn: int, jn: int, p: (Vertex, Vertex))
    requires Position(mc, cn, jn)
    ensures p in ArcsBefore(mc, cn, jn) <==> LegArcBefore(mc, cn, jn, p)
    decreases cn, jn
  {
    if jn > 0 {
      ArcsBeforeMembers(mc, cn, jn - 1, p);
      ArcsBeforeStep(mc, cn, jn, p);
    } else if cn > 0 {
      ArcsBeforeMembers(mc, cn - 1, |mc.connections[cn - 1].journeys|, p);
      ArcsBeforeNext(mc, cn, p);
    }
  }

  /** Every leg of the journeys handled before the point `(cn, jn)` has its edge. */
  ghost predicate Covered(mc: MultiConnection, vert2idx: map<Vertex, nat>, graph: map<(nat, nat), int>, cn: int, jn: int)
  {
    forall ci, ji, i :: IsLeg(mc, ci, ji, i) && Before(ci, ji, cn, jn) ==>
      HasArc(vert2idx, graph, LegArc(mc, ci, ji, i).0, LegArc(mc, ci, ji, i).1)
  }

  lemma CoveredGrows(mc: MultiConnection, v1: map<Vertex, nat>, g1: map<(nat, nat), int>,
                     v2: map<Vertex, nat>, g2: map<(nat, nat), int>, cn: int, jn: int)
    requires Covered(mc, v1, g1, cn, jn) && Grows(v1, g1, v2, g2)
    ensures Covered(mc, v2, g2, cn, jn)
  {
    forall ci, ji, i | IsLeg(mc, ci, ji, i) && Before(ci, ji, cn, jn)
      ensures HasArc(v2, g2, LegArc(mc, ci, ji, i).0, LegArc(mc, ci, ji, i).1)
    {
      assert HasArc(v1, g1, LegArc(mc, ci, ji, i).0, LegArc(mc, ci, ji, i).1);
    }
  }

  /** Handling journey `ji` of connection `ci` extends the coverage past it. */
  lemma CoveredStep(mc: MultiConnection, v1: map<Vertex, nat>, g1: map<(nat, nat), int>,
                    v2: map<Vertex, nat>, g2: map<(nat, nat), int>, ci: int, ji: int)
    requires Covered(mc, v1, g1, ci, ji) && Grows(v1, g1, v2, g2)
    requires forall i :: IsLeg(mc, ci, ji, i) ==> HasArc(v2, g2, LegArc(mc, ci, ji, i).0, LegArc(mc, ci, ji, i).1)
    ensures Covered(mc, v2, g2, ci, ji + 1)
  {
    CoveredGrows(mc, v1, g1, v2, g2, ci, ji);
    forall c, k, i | IsLeg(mc, c, k, i) && Before(c, k, ci, ji + 1)
      ensures HasArc(v2, g2, LegArc(mc, c, k, i).0, LegArc(mc, c, k, i).1)
    {
      if !(c == ci && k == ji) {
        assert Before(c, k, ci, ji);
      }
    }
  }

  /** Past the last journey of a connection is the start of the next. */
  lemma CoveredNext(mc: MultiConnection, vert2idx: map<Vertex, nat>, graph: map<(nat, nat), int>, ci: int)
    requires 0 <= ci < |mc.connections|
    requires Covered(mc, vert2idx, graph, ci, |mc.connections[ci].journeys|)
    ensures Covered(mc, vert2idx, graph, ci + 1, 0)
  {
    forall c, k, i | IsLeg(mc, c, k, i) && Before(c, k, ci + 1, 0)
      ensures HasArc(vert2idx, graph, LegArc(mc, c, k, i).0, LegArc(mc, c, k, i).1)
    {
      assert Before(c, k, ci, |mc.connections[ci].journeys|);
    }
  }

  /** A vertex brought in by a travel edge is a graph vertex. */
  lemma TouchedIsGraphVertex(mc: MultiConnection, ci: int, ji: int, i: int, v: Vertex)
    requires IsLeg(mc, ci, ji, i) && v in Touched(LegArc(mc, ci, ji, i).0, LegArc(mc, ci, ji, i).1)
    ensures GraphVertex(mc, v)
  {
    var p := LegArc(mc, ci, ji, i);
    var end := if v in Introduced(p.0) then p.0 else p.1;
    assert LegEnd(mc, end);
    assert v == end || v == Initial(end.place) || v == Final(end.place);
  }

  /** A graph vertex is brought in by the travel edge of some leg. */
  lemma GraphVertexTouched(mc: MultiConnection, v: Vertex) returns (ci: int, ji: int, i: int)
    requires GraphVertex(mc, v)
    ensures IsLeg(mc, ci, ji, i) && v in Touched(LegArc(mc, ci, ji, i).0, LegArc(mc, ci, ji, i).1)
  {
    var end: Vertex;
    if v.PlaceTime? {
      end := v;
    } else {
      var t :| LegEnd(mc, PlaceTime(v.place, t));
      end := PlaceTime(v.place, t);
    }
    ci, ji, i :| IsLeg(mc, ci, ji, i) && (LegArc(mc, ci, ji, i).0 == end || LegArc(mc, ci, ji, i).1 == end);
    assert v in Introduced(end);
  }

  /** The vertices brought in by all travel edges are exactly the graph's vertices. */
  lemma AllVertices(mc: MultiConnection, v: Vertex)
    ensures v in TouchedBy(ArcsBefore(mc, |mc.connections|, 0)) <==> GraphVertex(mc, v)
  {
    var all := ArcsBefore(mc, |mc.connections|, 0);
    if v in TouchedBy(all) {
      var p :| p in all && v in Touched(p.0, p.1);
      ArcsBeforeMembers(mc, |mc.connections|, 0, p);
      var ci, ji, i :| IsLeg(mc, ci, ji, i) && Before(ci, ji, |mc.connections|, 0) && LegArc(mc, ci, ji, i) == p;
      TouchedIsGraphVertex(mc, ci, ji, i, v);
    }
    if GraphVertex(mc, v) {
      var ci, ji, i := GraphVertexTouched(mc, v);
      var p := LegArc(mc, ci, ji, i);
      ArcsBeforeMembers(mc, |mc.connections|, 0, p);
      assert Before(ci, ji, |mc.connections|, 0);
      assert p in all;
    }
  }

  /** The travel edges gathered over all journeys are exactly the legs' edges. */
  lemma AllTravelArcs(mc: MultiConnection, a: Vertex, b: Vertex)
    ensures (a, b) in ArcsBefore(mc, |mc.connections|, 0) <==> TravelArc(mc, a, b)
  {
    ArcsBeforeMembers(mc, |mc.connections|, 0, (a, b));
    if TravelArc(mc, a, b) {
      var ci, ji, i :| IsLeg(mc, ci, ji, i) && LegArc(mc, ci, ji, i) == (a, b);
      assert Before(ci, ji, |mc.connections|, 0);
    }
  }

  /** The legs before `n` keep their edges as the maps grow, and with the edge of
      leg `n` (when it passes the guard) the legs before `n + 1` have theirs. */
  lemma ArcsSurvive(v1: map<Vertex, nat>, g1: map<(nat, nat), int>, v2: map<Vertex, nat>, g2: map<(nat, nat), int>,
                    j: Journey, stops: seq<string>, n: int)
    requires Grows(v1, g1, v2, g2) && Traversable(stops, j)
    requires forall k :: IsLegOf(j, k) && k < n ==> HasArc(v1, g1, LegSource(stops, j, k), LegTarget(stops, j, k))
    requires IsLegOf(j, n) ==> HasArc(v2, g2, LegSource(stops, j, n), LegTarget(stops, j, n))
    ensures forall k :: IsLegOf(j, k) && k < n + 1 ==> HasArc(v2, g2, LegSource(stops, j, k), LegTarget(stops, j, k))
  {
    forall k | IsLegOf(j, k) && k < n + 1
      ensures HasArc(v2, g2, LegSource(stops, j, k), LegTarget(stops, j, k))
    {
      if k < n {
        assert HasArc(v1, g1, LegSource(stops, j, k), LegTarget(stops, j, k));
      }
    }
  }

  /** The out-neighbours of a station's `Initial` vertex are exactly its time
      vertices. */
  lemma InitialNeighbours(vert2idx: map<Vertex, nat>, idx2vert: map<nat, Vertex>, count: nat,
                          graph: map<(nat, nat), int>, s: string)
    requires Numbered(vert2idx, idx2vert, count) && EdgesWellWeighted(idx2vert, graph) && Fanned(vert2idx, graph)
    requires Initial(s) in vert2idx
    ensures forall b :: (vert2idx[Initial(s)], b) in graph <==>
              b in idx2vert && idx2vert[b].PlaceTime? && idx2vert[b].place == s
  {
    var ini := vert2idx[Initial(s)];
    forall b ensures (ini, b) in graph <==> b in idx2vert && idx2vert[b].PlaceTime? && idx2vert[b].place == s {
      if (ini, b) in graph {
        assert WellWeighted(idx2vert[ini], idx2vert[b], graph[(ini, b)]);
      }
      if b in idx2vert && idx2vert[b].PlaceTime? && idx2vert[b].place == s {
        assert HasArc(vert2idx, graph, Initial(s), idx2vert[b]);
      }
    }
  }

  /** A time vertex has its station's `Initial` vertex, so a station without
      one has no times to chain. */
  lemma NoInitialNoTimes(vert2idx: map<Vertex, nat>, graph: map<(nat, nat), int>, s: string)
    requires Fanned(vert2idx, graph)
    requires Initial(s) !in vert2idx
    ensures forall v :: v in vert2idx && v.PlaceTime? ==> v.place != s
    ensures StationTimes(vert2idx, s) == {}
  {
    forall v | v in vert2idx && v.PlaceTime? ensures v.place != s {
      assert HasArc(vert2idx, graph, Initial(v.place), v);
    }
  }

  /** Growing the maps keeps every time vertex's fan edges, as long as no time
      vertex is added. */
  lemma FannedKept(v1: map<Vertex, nat>, g1: map<(nat, nat), int>, v2: map<Vertex, nat>, g2: map<(nat, nat), int>)
    requires Fanned(v1, g1) && Grows(v1, g1, v2, g2)
    requires forall u :: u in v2 && u.PlaceTime? ==> u in v1
    ensures Fanned(v2, g2)
  {
    forall u | u in v2 && u.PlaceTime?
      ensures HasArc(v2, g2, Initial(u.place), u) && HasArc(v2, g2, u, Final(u.place))
    {
      assert HasArc(v1, g1, Initial(u.place), u) && HasArc(v1, g1, u, Final(u.place));
    }
  }

  /** The same, when the one time vertex added comes with its fan edges. */
  lemma FannedExtended(v1: map<Vertex, nat>, g1: map<(nat, nat), int>, v2: map<Vertex, nat>, g2: map<(nat, nat), int>,
                       v: Vertex)
    requires Fanned(v1, g1) && Grows(v1, g1, v2, g2)
    requires forall u :: u in v2 && u.PlaceTime? ==> u in v1 || u == v
    requires v.PlaceTime? && HasArc(v2, g2, Initial(v.place), v) && HasArc(v2, g2, v, Final(v.place))
    ensures Fanned(v2, g2)
  {
    forall u | u in v2 && u.PlaceTime?
      ensures HasArc(v2, g2, Initial(u.place), u) && HasArc(v2, g2, u, Final(u.place))
    {
      if u != v {
        assert HasArc(v1, g1, Initial(u.place), u) && HasArc(v1, g1, u, Final(u.place));
      }
    }
  }

  /* Solver aids. The lemmas below regroup facts the methods already hold (set
     unions and the one-step unfolding of the gathered sets) into exactly the
     form of the next loop invariant or postcondition. They state no property
     of the graph of their own. */

  lemma GrowsTrans(v1: map<Vertex, nat>, g1: map<(nat, nat), int>, v2: map<Vertex, nat>, g2: map<(nat, nat), int>,
                   v3: map<Vertex, nat>, g3: map<(nat, nat), int>)
    requires Grows(v1, g1, v2, g2) && Grows(v2, g2, v3, g3)
    ensures Grows(v1, g1, v3, g3)
  {
  }

  /** One more step of the chain adds the edge between the `n`-th and `n+1`-th time. */
  lemma ChainArcsStep(a0: set<(Vertex, Vertex)>, a1: set<(Vertex, Vertex)>, a2: set<(Vertex, Vertex)>,
                      s: string, ts: seq<int>, n: nat)
    requires n + 1 < |ts|
    requires a1 == a0 + ChainArcs(s, ts, n) && a2 == a1 + {(PlaceTime(s, ts[n]), PlaceTime(s, ts[n + 1]))}
    ensures a2 == a0 + ChainArcs(s, ts, n + 1)
  {
  }

  /** One more passing pair brings in the vertices of its edge when it passes the guard. */
  lemma LegVerticesStep(m0: map<Vertex, nat>, m1: map<Vertex, nat>, m2: map<Vertex, nat>,
                        stops: seq<string>, j: Journey, i: nat)
    requires Traversable(stops, j)
    requires m1.Keys == m0.Keys + LegVertices(stops, j, i)
    requires m2.Keys == m1.Keys + if IsLegOf(j, i) then Touched(LegSource(stops, j, i), LegTarget(stops, j, i)) else {}
    ensures m2.Keys == m0.Keys + LegVertices(stops, j, i + 1)
  {
  }

  /** One more passing pair adds its edge when it passes the guard. */
  lemma LegArcsStep(a0: set<(Vertex, Vertex)>, a1: set<(Vertex, Vertex)>, a2: set<(Vertex, Vertex)>,
                    stops: seq<string>, j: Journey, i: nat)
    requires Traversable(stops, j)
    requires a1 == a0 + LegArcs(stops, j, i)
    requires a2 == a1 + if IsLegOf(j, i) then {(LegSource(stops, j, i), LegTarget(stops, j, i))} else {}
    ensures a2 == a0 + LegArcs(stops, j, i + 1)
  {
  }

  /** Adding one key and then another adds both. */
  lemma KeysAddedTwice(m0: map<Vertex, nat>, m1: map<Vertex, nat>, m2: map<Vertex, nat>, a: Vertex, b: Vertex)
    requires m1.Keys == m0.Keys + {a} && m2.Keys == m1.Keys + {b}
    ensures m2.Keys == m0.Keys + {a, b}
  {
  }

  /** Adding one set of keys and then another adds their union. */
  lemma KeysAddedSets(m0: map<Vertex, nat>, m1: map<Vertex, nat>, m2: map<Vertex, nat>, a: set<Vertex>, b: set<Vertex>)
    requires m1.Keys == m0.Keys + a && m2.Keys == m1.Keys + b
    ensures m2.Keys == m0.Keys + (a + b)
  {
  }

  class ConnectionGraph {
    var graph: map<(nat, nat), int>
    var idx2vert: map<nat, Vertex>
    var vert2idx: map<Vertex, nat>
    var count: nat
    /** The edges between time vertices written so far; a proof device only. */
    ghost var arcs: set<(Vertex, Vertex)>

    /** The numbering is consistent and every edge is well weighted. */
    ghost predicate Indexed()
      reads this
    {
      Numbered(vert2idx, idx2vert, count) && EdgesWellWeighted(idx2vert, graph) && ArcsRecorded(idx2vert, graph, arcs)
    }

    ghost predicate Valid()
      reads this
    {
      Indexed() && Fanned(vert2idx, graph)
    }

    /** `new` and what it builds: every travel edge of the journeys that run on
        the query date, exactly the ends of those edges and their stations'
        anchors as vertices, the fan edges, and the wait edges of `mc.stops`;
        no other edge joins two time vertices. */
    constructor(mc: MultiConnection)
      requires Buildable(mc)
      ensures Valid()
      ensures forall ci, ji, i :: IsLeg(mc, ci, ji, i) ==>
                HasArc(vert2idx, graph, LegArc(mc, ci, ji, i).0, LegArc(mc, ci, ji, i).1)
      ensures forall v :: v in vert2idx <==> GraphVertex(mc, v)
      ensures forall s, t1, t2 :: s in mc.stops && Consecutive(StationTimes(vert2idx, s), t1, t2) ==>
                HasArc(vert2idx, graph, PlaceTime(s, t1), PlaceTime(s, t2))
      ensures forall a, b :: HasArc(vert2idx, graph, a, b) && a.PlaceTime? && b.PlaceTime? ==>
                TravelArc(mc, a, b) || WaitArc(mc.stops, vert2idx, a, b)
    {
      graph := map[];
      idx2vert := map[];
      vert2idx := map[];
      count := 0;
      arcs := {};
      new;
      var ci := 0;
      while ci < |mc.connections|
        invariant 0 <= ci <= |mc.connections| && BuiltUpTo(mc, ci, 0)
      {
        AddConnection(mc, ci);
        ci := ci + 1;
      }
      ghost var legGraph := graph;
      BuildWaitingEdges(mc.stops);
      CoveredGrows(mc, vert2idx, legGraph, vert2idx, graph, ci, 0);
      Built(mc);
    }

    /** The journeys before the point `(cn, jn)` are in the graph: their
        vertices, their travel edges and nothing else between time vertices. */
    ghost predicate BuiltUpTo(mc: MultiConnection, cn: int, jn: int)
      requires Position(mc, cn, jn)
      reads this
    {
      && Valid()
      && vert2idx.Keys == TouchedBy(ArcsBefore(mc, cn, jn))
      && arcs == ArcsBefore(mc, cn, jn)
      && Covered(mc, vert2idx, graph, cn, jn)
    }

    /** What the finished graph satisfies, from the state the loops leave. */
    lemma Built(mc: MultiConnection)
      requires Valid()
      requires vert2idx.Keys == TouchedBy(ArcsBefore(mc, |mc.connections|, 0))
      requires arcs == ArcsBefore(mc, |mc.connections|, 0) + WaitArcs(vert2idx, mc.stops)
      requires Covered(mc, vert2idx, graph, |mc.connections|, 0)
      ensures forall ci, ji, i :: IsLeg(mc, ci, ji, i) ==>
                HasArc(vert2idx, graph, LegArc(mc, ci, ji, i).0, LegArc(mc, ci, ji, i).1)
      ensures forall v :: v in vert2idx <==> GraphVertex(mc, v)
      ensures forall a, b :: HasArc(vert2idx, graph, a, b) && a.PlaceTime? && b.PlaceTime? ==>
                TravelArc(mc, a, b) || WaitArc(mc.stops, vert2idx, a, b)
    {
      forall ci, ji, i | IsLeg(mc, ci, ji, i)
        ensures HasArc(vert2idx, graph, LegArc(mc, ci, ji, i).0, LegArc(mc, ci, ji, i).1)
      {
        assert Before(ci, ji, |mc.connections|, 0);
      }
      forall v ensures v in vert2idx <==> GraphVertex(mc, v) {
        AllVertices(mc, v);
      }
      forall a, b | HasArc(vert2idx, graph, a, b) && a.PlaceTime? && b.PlaceTime?
        ensures TravelArc(mc, a, b) || WaitArc(mc.stops, vert2idx, a, b)
      {
        var e := (vert2idx[a], vert2idx[b]);
        assert idx2vert[e.0] == a && idx2vert[e.1] == b;
        assert TimeArc(a, b) <= arcs;
        AllTravelArcs(mc, a, b);
      }
    }

    /** Each edge carries the weight its kind demands: nothing for a fan edge,
        the time gap for an edge between time vertices. */
    lemma ArcWeight(a: Vertex, b: Vertex)
      requires Valid() && HasArc(vert2idx, graph, a, b)
      ensures WellWeighted(a, b, graph[(vert2idx[a], vert2idx[b])])
      ensures a.PlaceTime? && b.PlaceTime? ==> graph[(vert2idx[a], vert2idx[b])] == b.time - a.time > 0
      ensures !(a.PlaceTime? && b.PlaceTime?) ==> graph[(vert2idx[a], vert2idx[b])] == 0
    {
      var e := (vert2idx[a], vert2idx[b]);
      assert idx2vert[e.0] == a && idx2vert[e.1] == b;
      assert WellWeighted(idx2vert[e.0], idx2vert[e.1], graph[e]);
    }

    /** No edge weighs less than nothing, which is what a shortest-path search
        over the graph needs. */
    lemma WeightsNonNegative()
      requires Valid()
      ensures forall e :: e in graph ==> graph[e] >= 0
    {
      forall e | e in graph ensures graph[e] >= 0 {
        WeightDetermined(idx2vert[e.0], idx2vert[e.1], graph[e], graph[e]);
      }
    }

    /** Writing an edge that is already present, with the weight its kind
        demands, leaves the graph as it was. */
    lemma OverwriteHarmless(a: nat, b: nat, w: int)
      requires Valid() && (a, b) in graph && a in idx2vert && b in idx2vert
      requires WellWeighted(idx2vert[a], idx2vert[b], w)
      ensures graph[(a, b) := w] == graph
    {
      WeightDetermined(idx2vert[a], idx2vert[b], graph[(a, b)], w);
    }

    /** The journey loop of `new` for one connection. */
    method AddConnection(mc: MultiConnection, ci: int)
      requires Buildable(mc) && 0 <= ci < |mc.connections| && Position(mc, ci + 1, 0)
      requires BuiltUpTo(mc, ci, 0)
      modifies this
      ensures BuiltUpTo(mc, ci + 1, 0)
    {
      var ji := 0;
      while ji < |mc.connections[ci].journeys|
        invariant 0 <= ji <= |mc.connections[ci].journeys| && BuiltUpTo(mc, ci, ji)
      {
        ghost var v0, g0, before := vert2idx, graph, ArcsBefore(mc, ci, ji);
        AddJourney(mc, ci, ji);
        CoveredStep(mc, v0, g0, vert2idx, graph, ci, ji);
        TouchedByUnion(before, JourneyArcs(mc, ci, ji));
        ji := ji + 1;
      }
      CoveredNext(mc, vert2idx, graph, ci);
    }

    /** One journey of `new`: `is_valid` on the query date, then the passing loop
        if it runs. */
    method AddJourney(mc: MultiConnection, ci: int, ji: int)
      requires Buildable(mc) && 0 <= ci < |mc.connections| && 0 <= ji < |mc.connections[ci].journeys|
      requires Valid()
      modifies this
      ensures Valid()
      ensures Grows(old(vert2idx), old(graph), vert2idx, graph)
      ensures forall i :: IsLeg(mc, ci, ji, i) ==>
                HasArc(vert2idx, graph, LegArc(mc, ci, ji, i).0, LegArc(mc, ci, ji, i).1)
      ensures vert2idx.Keys == old(vert2idx).Keys + TouchedBy(JourneyArcs(mc, ci, ji))
      ensures arcs == old(arcs) + JourneyArcs(mc, ci, ji)
    {
      var c := mc.connections[ci];
      var j := c.journeys[ji];
      var valid := JourneyIsValid(c.operatingPeriods, c.dayTypes, j, QueryDate);
      if valid {
        AddJourneyLegs(mc.stops, j);
        LegVerticesTouched(mc.stops, j, |j.passings| - 1);
      } else {
        assert TouchedBy({}) == {};
      }
    }

    /** The id assignment in `get_or_insert`: a vertex not yet known gets `count`
        in both maps, and `count` moves on. */
    method Number(v: Vertex) returns (id: nat)
      requires Indexed() && v !in vert2idx
      modifies this
      ensures Indexed()
      ensures id == old(count) && count == old(count) + 1
      ensures vert2idx == old(vert2idx)[v := id] && idx2vert == old(idx2vert)[id := v] && graph == old(graph)
      ensures arcs == old(arcs)
    {
      id := count;
      vert2idx := vert2idx[v := id];
      idx2vert := idx2vert[id := v];
      count := count + 1;
    }

    /** `get_or_insert`: a known vertex keeps its id and nothing changes; a new
        one gets `count`, and a new time vertex then brings in its station's
        `Initial` and `Final` vertices, in that order, and the two fan edges. */
    method GetOrInsert(v: Vertex) returns (id: nat)
      requires Indexed()
      modifies this
      decreases if v.PlaceTime? then 1 else 0, 1
      ensures Indexed() && arcs == old(arcs)
      ensures Grows(old(vert2idx), old(graph), vert2idx, graph)
      ensures old(Fanned(vert2idx, graph)) ==> Fanned(vert2idx, graph)
      ensures v in vert2idx && id == vert2idx[v]
      ensures v in old(vert2idx) ==>
                vert2idx == old(vert2idx) && idx2vert == old(idx2vert) && count == old(count) && graph == old(graph)
      ensures !v.PlaceTime? ==> vert2idx.Keys == old(vert2idx).Keys + {v}
      ensures v !in old(vert2idx) || old(Fanned(vert2idx, graph)) ==> vert2idx.Keys == old(vert2idx).Keys + Introduced(v)
      ensures v !in old(vert2idx) && !v.PlaceTime? ==>
                id == old(count) && count == old(count) + 1 && graph == old(graph)
      ensures v !in old(vert2idx) && v.PlaceTime? ==>
                var ini, fin := Initial(v.place), Final(v.place);
                var newIni, newFin := ini !in old(vert2idx), fin !in old(vert2idx);
                && id == old(count) && ini in vert2idx && fin in vert2idx
                && (newIni ==> vert2idx[ini] == old(count) + 1)
                && (newFin ==> vert2idx[fin] == old(count) + if newIni then 2 else 1)
                && count == old(count) + 1 + (if newIni then 1 else 0) + (if newFin then 1 else 0)
                && graph == old(graph)[(vert2idx[ini], id) := 0][(id, vert2idx[fin]) := 0]
    {
      if v in vert2idx {
        if v.PlaceTime? && Fanned(vert2idx, graph) {
          assert HasArc(vert2idx, graph, Initial(v.place), v) && HasArc(vert2idx, graph, v, Final(v.place));
        }
        return vert2idx[v];
      }
      id := Number(v);
      if v.PlaceTime? {
        ghost var numbered, graphNumbered := vert2idx, graph;
        assert Grows(old(vert2idx), old(graph), numbered, graphNumbered);
        AddFans(v, id);
        GrowsTrans(old(vert2idx), old(graph), numbered, graphNumbered, vert2idx, graph);
        KeysAddedSets(old(vert2idx), numbered, vert2idx, {v}, {Initial(v.place), Final(v.place)});
        assert vert2idx.Keys == old(vert2idx).Keys + Introduced(v);
        if old(Fanned(vert2idx, graph)) {
          FannedExtended(old(vert2idx), old(graph), vert2idx, graph, v);
        }
      } else if old(Fanned(vert2idx, graph)) {
        FannedKept(old(vert2idx), old(graph), vert2idx, graph);
      }
    }

    /** The tail of `get_or_insert` for a new time vertex: the station's
        `Initial` and `Final` vertices, then the edges into and out of `v`. */
    method AddFans(v: Vertex, id: nat)
      requires Indexed() && v.PlaceTime? && v in vert2idx && vert2idx[v] == id
      modifies this
      decreases 1, 0
      ensures Indexed() && arcs == old(arcs)
      ensures Grows(old(vert2idx), old(graph), vert2idx, graph)
      ensures vert2idx.Keys == old(vert2idx).Keys + {Initial(v.place), Final(v.place)}
      ensures HasArc(vert2idx, graph, Initial(v.place), v) && HasArc(vert2idx, graph, v, Final(v.place))
      ensures var ini, fin := Initial(v.place), Final(v.place);
              var newIni, newFin := ini !in old(vert2idx), fin !in old(vert2idx);
              && (newIni ==> vert2idx[ini] == old(count))
              && (newFin ==> vert2idx[fin] == old(count) + if newIni then 1 else 0)
              && count == old(count) + (if newIni then 1 else 0) + (if newFin then 1 else 0)
              && graph == old(graph)[(vert2idx[ini], id) := 0][(id, vert2idx[fin]) := 0]
    {
      var ini := GetOrInsert(Initial(v.place));
      ghost var afterIni, graphAfterIni := vert2idx, graph;
      assert vert2idx[v] == id;
      var fin := GetOrInsert(Final(v.place));
      ghost var afterFin, graphAfterFin := vert2idx, graph;
      assert vert2idx[v] == id && vert2idx[Initial(v.place)] == ini && vert2idx[Final(v.place)] == fin;
      KeysAddedTwice(old(vert2idx), afterIni, afterFin, Initial(v.place), Final(v.place));
      GrowsTrans(old(vert2idx), old(graph), afterIni, graphAfterIni, afterFin, graphAfterFin);
      AddEdge(ini, id, 0);
      AddEdge(id, fin, 0);
      assert (ini, id) in graph && (id, fin) in graph;
      GrowsTrans(old(vert2idx), old(graph), afterFin, graphAfterFin, vert2idx, graph);
    }

    /** `add_edge`: the edge is written, replacing any weight it had. */
    method AddEdge(a: nat, b: nat, w: int)
      requires Indexed() && a in idx2vert && b in idx2vert && WellWeighted(idx2vert[a], idx2vert[b], w)
      modifies this
      ensures Indexed()
      ensures vert2idx == old(vert2idx) && idx2vert == old(idx2vert) && count == old(count)
      ensures graph == old(graph)[(a, b) := w]
      ensures Grows(old(vert2idx), old(graph), vert2idx, graph)
      ensures arcs == old(arcs) + TimeArc(idx2vert[a], idx2vert[b])
    {
      if (a, b) in graph {
        WeightDetermined(idx2vert[a], idx2vert[b], graph[(a, b)], w);
      }
      graph := graph[(a, b) := w];
      arcs := arcs + TimeArc(idx2vert[a], idx2vert[b]);
    }

    /** The body of the passing loop in `new` for a pair that passes the guard:
        both time vertices, then the travel edge weighted by the time gap. */
    method AddTravelEdge(a: Vertex, b: Vertex)
      requires Valid()
      requires a.PlaceTime? && b.PlaceTime? && a.time < b.time
      modifies this
      ensures Valid()
      ensures Grows(old(vert2idx), old(graph), vert2idx, graph)
      ensures HasArc(vert2idx, graph, a, b) && graph[(vert2idx[a], vert2idx[b])] == b.time - a.time
      ensures vert2idx.Keys == old(vert2idx).Keys + Touched(a, b)
      ensures arcs == old(arcs) + {(a, b)}
    {
      var startId := GetOrInsert(a);
      ghost var afterStart, graphAfterStart := vert2idx, graph;
      var endId := GetOrInsert(b);
      ghost var afterEnd, graphAfterEnd := vert2idx, graph;
      assert vert2idx[a] == startId && vert2idx[b] == endId;
      KeysAddedSets(old(vert2idx), afterStart, afterEnd, Introduced(a), Introduced(b));
      GrowsTrans(old(vert2idx), old(graph), afterStart, graphAfterStart, afterEnd, graphAfterEnd);
      AddEdge(startId, endId, b.time - a.time);
      assert graph[(startId, endId)] == b.time - a.time;
      GrowsTrans(old(vert2idx), old(graph), afterEnd, graphAfterEnd, vert2idx, graph);
      FannedKept(afterEnd, graphAfterEnd, vert2idx, graph);
    }

    /** One turn of the passing loop of `new`: the pair at `i` and its successor,
        skipped unless the guard lets it through. */
    method AddLegAt(stops: seq<string>, j: Journey, i: nat)
      requires Valid() && Traversable(stops, j) && i < |j.passings| - 1
      modifies this
      ensures Valid()
      ensures Grows(old(vert2idx), old(graph), vert2idx, graph)
      ensures IsLegOf(j, i) ==> HasArc(vert2idx, graph, LegSource(stops, j, i), LegTarget(stops, j, i))
      ensures vert2idx.Keys == old(vert2idx).Keys
                               + if IsLegOf(j, i) then Touched(LegSource(stops, j, i), LegTarget(stops, j, i)) else {}
      ensures arcs == old(arcs) + if IsLegOf(j, i) then {(LegSource(stops, j, i), LegTarget(stops, j, i))} else {}
    {
      var start, end := j.passings[i], j.passings[i + 1];
      if Advances(start, end) {
        assert IsLegOf(j, i);
        LegGoesForward(stops, j, i);
        AddTravelEdge(PlaceTime(stops[start.stopPoint], start.departure.value),
                      PlaceTime(stops[end.stopPoint], end.arrival.value));
      }
    }

    /** The passing loop of `new` for one journey that runs: every leg whose
        guard passes gets its travel edge. */
    method AddJourneyLegs(stops: seq<string>, j: Journey)
      requires Valid() && Traversable(stops, j)
      modifies this
      ensures Valid()
      ensures Grows(old(vert2idx), old(graph), vert2idx, graph)
      ensures forall i :: IsLegOf(j, i) ==> HasArc(vert2idx, graph, LegSource(stops, j, i), LegTarget(stops, j, i))
      ensures vert2idx.Keys == old(vert2idx).Keys + LegVertices(stops, j, |j.passings| - 1)
      ensures arcs == old(arcs) + LegArcs(stops, j, |j.passings| - 1)
    {
      var i := 0;
      while i < |j.passings| - 1
        invariant 0 <= i <= |j.passings| - 1
        invariant Valid()
        invariant Grows(old(vert2idx), old(graph), vert2idx, graph)
        invariant forall k :: IsLegOf(j, k) && k < i ==> HasArc(vert2idx, graph, LegSource(stops, j, k), LegTarget(stops, j, k))
        invariant vert2idx.Keys == old(vert2idx).Keys + LegVertices(stops, j, i)
        invariant arcs == old(arcs) + LegArcs(stops, j, i)
      {
        ghost var before, graphBefore, arcsBefore := vert2idx, graph, arcs;
        AddLegAt(stops, j, i);
        GrowsTrans(old(vert2idx), old(graph), before, graphBefore, vert2idx, graph);
        ArcsSurvive(before, graphBefore, vert2idx, graph, j, stops, i);
        LegVerticesStep(old(vert2idx), before, vert2idx, stops, j, i);
        LegArcsStep(old(arcs), arcsBefore, arcs, stops, j, i);
        i := i + 1;
      }
    }
  
    /** One step of the chain in `build_waiting_edges`: the edge from the time
        vertex at `t1` to the one at `t2`, weighted by the wait. */
    method AddWaitEdge(s: string, t1: int, t2: int)
      requires Valid() && PlaceTime(s, t1) in vert2idx && PlaceTime(s, t2) in vert2idx && t1 < t2
      modifies this
      ensures Valid()
      ensures vert2idx == old(vert2idx) && idx2vert == old(idx2vert) && count == old(count)
      ensures Grows(old(vert2idx), old(graph), vert2idx, graph)
      ensures HasArc(vert2idx, graph, PlaceTime(s, t1), PlaceTime(s, t2))
      ensures graph[(vert2idx[PlaceTime(s, t1)], vert2idx[PlaceTime(s, t2)])] == t2 - t1
      ensures arcs == old(arcs) + {(PlaceTime(s, t1), PlaceTime(s, t2))}
    {
      AddEdge(vert2idx[PlaceTime(s, t1)], vert2idx[PlaceTime(s, t2)], t2 - t1);
      FannedKept(old(vert2idx), old(graph), vert2idx, graph);
    }

    /** The chain loop of `build_waiting_edges` over a station's times in
        ascending order: each time vertex gets an edge to the next one. */
    method ChainTimes(s: string, ts: seq<int>)
      requires Valid() && |ts| > 0 && StrictlyIncreasing(ts)
      requires forall k :: 0 <= k < |ts| ==> PlaceTime(s, ts[k]) in vert2idx
      modifies this
      ensures Valid()
      ensures vert2idx == old(vert2idx) && idx2vert == old(idx2vert) && count == old(count)
      ensures Grows(old(vert2idx), old(graph), vert2idx, graph)
      ensures forall k :: 0 <= k < |ts| - 1 ==> HasArc(vert2idx, graph, PlaceTime(s, ts[k]), PlaceTime(s, ts[k + 1]))
      ensures arcs == old(arcs) + ChainArcs(s, ts, |ts| - 1)
    {
      var lastTime := ts[0];
      var k := 0;
      while k + 1 < |ts|
        invariant 0 <= k < |ts| && lastTime == ts[k]
        invariant Valid()
        invariant vert2idx == old(vert2idx) && idx2vert == old(idx2vert) && count == old(count)
        invariant Grows(old(vert2idx), old(graph), vert2idx, graph)
        invariant forall i :: 0 <= i < k ==> HasArc(vert2idx, graph, PlaceTime(s, ts[i]), PlaceTime(s, ts[i + 1]))
        invariant arcs == old(arcs) + ChainArcs(s, ts, k)
      {
        var currTime := ts[k + 1];
        ghost var graphBefore, arcsBefore := graph, arcs;
        AddWaitEdge(s, lastTime, currTime);
        GrowsTrans(old(vert2idx), old(graph), vert2idx, graphBefore, vert2idx, graph);
        ChainSurvives(vert2idx, graphBefore, graph, s, ts, k);
        ChainArcsStep(old(arcs), arcsBefore, arcs, s, ts, k);
        lastTime := currTime;
        k := k + 1;
      }
    }

    /** The times of a station's vertices as `build_waiting_edges` finds them:
        none when the station has no `Initial` vertex, otherwise the times of the
        out-neighbours of that vertex. */
    method StationTimesOf(s: string) returns (times: set<int>)
      requires Valid()
      ensures times == StationTimes(vert2idx, s)
      ensures forall t :: t in times ==> PlaceTime(s, t) in vert2idx
    {
      if Initial(s) !in vert2idx {
        NoInitialNoTimes(vert2idx, graph, s);
        return {};
      }
      var initId := vert2idx[Initial(s)];
      InitialNeighbours(vert2idx, idx2vert, count, graph, s);
      var neighbours := set e | e in graph.Keys && e.0 == initId :: e.1;
      times := set b | b in neighbours :: idx2vert[b].time;
      StationTimesAre(s, neighbours, times);
    }

    /** The out-neighbours of a station's `Initial` vertex carry exactly the
        station's times, and each of those times has its vertex. */
    lemma StationTimesAre(s: string, neighbours: set<nat>, times: set<int>)
      requires Valid() && Initial(s) in vert2idx
      requires neighbours == set e | e in graph.Keys && e.0 == vert2idx[Initial(s)] :: e.1
      requires forall b :: b in neighbours ==> b in idx2vert && idx2vert[b].PlaceTime?
      requires times == set b | b in neighbours :: idx2vert[b].time
      ensures times == StationTimes(vert2idx, s)
      ensures forall t :: t in times ==> PlaceTime(s, t) in vert2idx
    {
      InitialNeighbours(vert2idx, idx2vert, count, graph, s);
      forall t | t in times ensures t in StationTimes(vert2idx, s) {
        var b :| b in neighbours && idx2vert[b].time == t;
        assert (vert2idx[Initial(s)], b) in graph;
        assert idx2vert[b] == PlaceTime(s, t);
      }
      forall t | t in StationTimes(vert2idx, s) ensures t in times {
        var v := PlaceTime(s, t);
        assert (vert2idx[Initial(s)], vert2idx[v]) in graph.Keys;
      }
    }

    /** The body of the station loop of `build_waiting_edges`: the station's
        time vertices sorted by time and chained. */
    method ChainStation(s: string)
      requires Valid()
      modifies this
      ensures Valid()
      ensures vert2idx == old(vert2idx) && idx2vert == old(idx2vert) && count == old(count)
      ensures Grows(old(vert2idx), old(graph), vert2idx, graph)
      ensures forall t1, t2 :: Consecutive(StationTimes(vert2idx, s), t1, t2) ==>
                HasArc(vert2idx, graph, PlaceTime(s, t1), PlaceTime(s, t2))
      ensures arcs == old(arcs) + WaitArcs(vert2idx, [s])
    {
      var times := StationTimesOf(s);
      var ts := Ascending(times);
      if |ts| == 0 {
        NoTimesNoWaits(vert2idx, s);
        return;
      }
      ChainTimes(s, ts);
      ChainIsWaits(vert2idx, s, ts);
      ChainCoversWaits(vert2idx, graph, s, ts);
    }

    /** `build_waiting_edges`: the station loop. */
    method BuildWaitingEdges(stations: seq<string>)
      requires Valid()
      modifies this
      ensures Valid()
      ensures vert2idx == old(vert2idx) && idx2vert == old(idx2vert) && count == old(count)
      ensures Grows(old(vert2idx), old(graph), vert2idx, graph)
      ensures forall s, t1, t2 :: s in stations && Consecutive(StationTimes(vert2idx, s), t1, t2) ==>
                HasArc(vert2idx, graph, PlaceTime(s, t1), PlaceTime(s, t2))
      ensures arcs == old(arcs) + WaitArcs(vert2idx, stations)
    {
      var i := 0;
      while i < |stations|
        invariant 0 <= i <= |stations|
        invariant Valid()
        invariant vert2idx == old(vert2idx) && idx2vert == old(idx2vert) && count == old(count)
        invariant Grows(old(vert2idx), old(graph), vert2idx, graph)
        invariant forall s, t1, t2 :: s in stations[..i] && Consecutive(StationTimes(vert2idx, s), t1, t2) ==>
                    HasArc(vert2idx, graph, PlaceTime(s, t1), PlaceTime(s, t2))
        invariant arcs == old(arcs) + WaitArcs(vert2idx, stations[..i])
      {
        ghost var graphBefore := graph;
        ChainStation(stations[i]);
        GrowsTrans(old(vert2idx), old(graph), vert2idx, graphBefore, vert2idx, graph);
        assert stations[..i + 1] == stations[..i] + [stations[i]];
        WaitArcsConcat(vert2idx, stations[..i], [stations[i]]);
        forall s, t1, t2 | s in stations[..i + 1] && Consecutive(StationTimes(vert2idx, s), t1, t2)
          ensures HasArc(vert2idx, graph, PlaceTime(s, t1), PlaceTime(s, t2))
        {
          if s != stations[i] {
            assert s in stations[..i];
            assert HasArc(vert2idx, graphBefore, PlaceTime(s, t1), PlaceTime(s, t2));
          }
        }
        i := i + 1;
      }
      assert stations[..i] == stations;
    }
  }
}
