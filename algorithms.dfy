/**
  The imperative side of Algorithms.py: `Station` objects whose fields the
  solver overwrites in place, and `Graph.dijkstra` with its loops. Each
  loop keeps the list of station objects in step with the value-level
  description in RouteModel, so the method returns what
  `RouteModel.DijkstraResult` says.

  Inside `dijkstra` the original keeps its lists in DoublyLinkedList
  containers; here they are sequences (the list itself is modelled in
  module LinkedList).
*/
module Algorithms {
  import opened RouteModel

  /** `Station`: the per-record working state of one query. */
  class Station {
    const stationName: StationName
    const trainLine: LineName
    var distance: Dist
    var neighbours: seq<Neighbour>
    var previous: Option<StationName>
    var viaLine: Option<LineName>

    /** The fields of this object as a value. */
    function State(): StationState
      reads this
    {
      StationState(stationName, trainLine, distance, neighbours, previous, viaLine)
    }

    /** A new station is unreached: distance inf, no neighbours, no previous, no line. */
    constructor (stationName: StationName, trainLine: LineName)
      ensures State() == StationState(stationName, trainLine, Inf, [], None, None)
    {
      this.stationName := stationName;
      this.trainLine := trainLine;
      distance := Inf;
      neighbours := [];
      previous := None;
      viaLine := None;
    }

    /** `return_neighbours`: the neighbour entries, newest first. */
    function ReturnNeighbours(): seq<Neighbour>
      reads this
    {
      neighbours
    }

    /** `add_neighbour`: the entry goes in front; nothing else changes. */
    method AddNeighbour(nb: Neighbour)
      modifies this
      ensures ReturnNeighbours() == [nb] + old(ReturnNeighbours())
      ensures State() == WithNeighbour(old(State()), nb)
    {
      neighbours := [nb] + neighbours;
    }
  }

  /** The names of the stations in a list; names never change. */
  function NamesOf(sd: seq<Station>): seq<StationName> {
    seq(|sd|, i requires 0 <= i < |sd| => sd[i].stationName)
  }

  /** The station objects in `sd` are the states `s`, position by position. */
  ghost predicate Matches(sd: seq<Station>, s: seq<StationState>)
    reads set x | x in sd
  {
    |sd| == |s| && forall i :: 0 <= i < |sd| ==> sd[i].State() == s[i]
  }

  predicate Distinct(sd: seq<Station>) {
    forall i, j :: 0 <= i < |sd| && 0 <= j < |sd| && i != j ==> sd[i] != sd[j]
  }

  lemma MatchesNames(sd: seq<Station>, s: seq<StationState>)
    requires Matches(sd, s)
    ensures NamesOf(sd) == Names(s)
  {
  }

  /** The distances of the stations in a list, in list order. */
  function DistancesOf(queue: seq<Station>): (ds: seq<Dist>)
    reads set x | x in queue
    ensures |ds| == |queue| && forall k :: 0 <= k < |queue| ==> ds[k] == queue[k].distance
  {
    if queue == [] then [] else [queue[0].distance] + DistancesOf(queue[1..])
  }

  /**
    `next((x for x in station_data if x.station_name == name), None)`: the
    position of the first station with that name.
  */
  method FirstStation(sd: seq<Station>, name: StationName) returns (r: Option<nat>)
    ensures r == FirstIndex(NamesOf(sd), name)
  {
    var i := 0;
    while i < |sd|
      invariant 0 <= i <= |sd|
      invariant forall k :: 0 <= k < i ==> sd[k].stationName != name
    {
      if sd[i].stationName == name {
        assert NamesOf(sd)[i] == name;
        return Some(i);
      }
      i := i + 1;
    }
    assert name !in NamesOf(sd);
    return None;
  }

  /**
    `min(queue, key=attrgetter("distance"))`: scans the queue and keeps the
    first station of smallest distance, replacing it only on a strict `<`.
  */
  method FirstMin(queue: seq<Station>) returns (m: nat)
    requires |queue| > 0
    ensures m < |queue|
    ensures forall k :: 0 <= k < |queue| ==> AtMost(queue[m].distance, queue[k].distance)
    ensures forall k :: 0 <= k < m ==> Less(queue[m].distance, queue[k].distance)
    ensures m == FirstMinimum(DistancesOf(queue))
  {
    m := 0;
    for k := 1 to |queue|
      invariant m < k
      invariant forall i :: 0 <= i < k ==> AtMost(queue[m].distance, queue[i].distance)
      invariant forall i :: 0 <= i < m ==> Less(queue[m].distance, queue[i].distance)
    {
      if Less(queue[k].distance, queue[m].distance) {
        m := k;
      }
    }
    var f := FirstMinimum(DistancesOf(queue));
    assert !Less(queue[f].distance, queue[m].distance);
  }

  /** Lines 44-49: one new station per node record, each put at the front. */
  method BuildStations(g: Graph, start: StationName) returns (sd: seq<Station>)
    ensures Matches(sd, InitialStates(g, start, |g.nodes|))
    ensures Distinct(sd)
    ensures forall k :: 0 <= k < |sd| ==> fresh(sd[k])
  {
    var stations := Stations(g);
    sd := [];
    for i := 0 to |g.nodes|
      invariant Matches(sd, InitialStates(g, start, i))
      invariant Distinct(sd)
      invariant forall k :: 0 <= k < |sd| ==> fresh(sd[k])
    {
      var currentPrev := new Station(g.nodes[i].station, g.nodes[i].line);
      if stations[i] == start {
        currentPrev.distance := Fin(0);
      }
      assert currentPrev.State() == NewStation(g.nodes[i], start);
      PrependMatches(sd, InitialStates(g, start, i), currentPrev);
      sd := [currentPrev] + sd;
    }
  }

  lemma PrependMatches(sd: seq<Station>, s: seq<StationState>, st: Station)
    requires Matches(sd, s) && Distinct(sd) && st !in sd
    ensures Matches([st] + sd, [st.State()] + s) && Distinct([st] + sd)
  {
  }

  /** `add_neighbour` on the station at position `i`: only that state changes. */
  method AddNeighbourAt(sd: seq<Station>, i: nat, nb: Neighbour, ghost s: seq<StationState>)
    requires Matches(sd, s) && Distinct(sd) && i < |sd|
    modifies sd[i]
    ensures Matches(sd, s[i := WithNeighbour(s[i], nb)])
  {
    sd[i].AddNeighbour(nb);
  }

  /** Lines 52-55 for one edge. */
  method WireEdge(sd: seq<Station>, e: Edge, ghost s: seq<StationState>) returns (ok: bool)
    requires Matches(sd, s) && Distinct(sd)
    modifies set x | x in sd
    ensures ok ==> AddEdge(s, e).Success? && Matches(sd, AddEdge(s, e).value)
    ensures !ok ==> AddEdge(s, e) == Failure(NoneDereference)
  {
    MatchesNames(sd, s);
    var station1 := FirstStation(sd, e.start);
    if station1.None? {
      return false;
    }
    AddNeighbourAt(sd, station1.value, Neighbour(e.end, e.weight, e.line), s);
    ghost var s1 := s[station1.value := WithNeighbour(s[station1.value], Neighbour(e.end, e.weight, e.line))];
    MatchesNames(sd, s1);
    var station2 := FirstStation(sd, e.end);
    if station2.None? {
      return false;
    }
    AddNeighbourAt(sd, station2.value, Neighbour(e.start, e.weight, e.line), s1);
    return true;
  }

  /** Wires edge `k` after edges `0..k-1` produced `s`. */
  method WireEdgeAt(sd: seq<Station>, edges: seq<Edge>, k: nat, ghost initial: seq<StationState>,
                    ghost s: seq<StationState>) returns (ok: bool, ghost s': seq<StationState>)
    requires k < |edges| && AddEdges(initial, edges, k) == Success(s)
    requires Matches(sd, s) && Distinct(sd)
    modifies set x | x in sd
    ensures ok ==> AddEdges(initial, edges, k + 1) == Success(s') && Matches(sd, s')
    ensures !ok ==> AddEdges(initial, edges, |edges|) == Failure(NoneDereference)
  {
    ok := WireEdge(sd, edges[k], s);
    if ok {
      s' := AddEdge(s, edges[k]).value;
    } else {
      s' := s;
      AddEdgesFailureSticks(initial, edges, k + 1, |edges|);
    }
  }

  /**
    Lines 51-55: for each edge, the first station named after either end gets
    the other end as a neighbour; `ok` is false exactly when a name is
    missing and the original fails on None.
  */
  method WireNeighbours(sd: seq<Station>, edges: seq<Edge>, ghost initial: seq<StationState>) returns (ok: bool)
    requires Matches(sd, initial) && Distinct(sd)
    modifies set x | x in sd
    ensures ok ==> AddEdges(initial, edges, |edges|).Success?
    ensures ok ==> Matches(sd, AddEdges(initial, edges, |edges|).value)
    ensures !ok ==> AddEdges(initial, edges, |edges|) == Failure(NoneDereference)
  {
    ghost var s := initial;
    for k := 0 to |edges|
      invariant AddEdges(initial, edges, k) == Success(s)
      invariant Matches(sd, s)
    {
      ok, s := WireEdgeAt(sd, edges, k, initial, s);
      if !ok {
        return;
      }
    }
    return true;
  }

  /**
    Lines 71-76: every station named `node` that `nextPath` beats gets
    distance `nextPath + 1`, previous `from` and via_line `line`.
  */
  method RelaxStations(sd: seq<Station>, node: StationName, nextPath: Dist, from: StationName,
                       line: LineName, ghost t: seq<StationState>)
    requires Matches(sd, t) && Distinct(sd)
    modifies set x | x in sd
    ensures Matches(sd, RelaxAll(t, node, nextPath, from, line))
  {
    for j := 0 to |sd|
      invariant forall i :: 0 <= i < j ==> sd[i].State() == Relaxed(t[i], node, nextPath, from, line)
      invariant forall i :: j <= i < |sd| ==> sd[i].State() == t[i]
    {
      var station := sd[j];
      if station.stationName == node && Less(nextPath, station.distance) {
        station.distance := Plus(nextPath, 1);
        station.previous := Some(from);
        station.viaLine := Some(line);
      }
    }
  }

  /** Lines 68-76: relax along every neighbour entry of `current`, the station `sd[ci]`. */
  method RelaxNeighbourhood(sd: seq<Station>, current: Station, ghost ci: nat, ghost s: seq<StationState>)
    requires Matches(sd, s) && Distinct(sd) && ci < |sd| && sd[ci] == current
    modifies set x | x in sd
    ensures Matches(sd, RelaxNeighbours(s, ci, s[ci].neighbours, |s[ci].neighbours|))
  {
    var nbrs := current.ReturnNeighbours();
    ghost var t := s;
    for k := 0 to |nbrs|
      invariant Matches(sd, t)
      invariant t == RelaxNeighbours(s, ci, nbrs, k)
    {
      var node, weight, line := nbrs[k].station, nbrs[k].weight, nbrs[k].line;
      var nextPath := Plus(current.distance, weight);
      RelaxStations(sd, node, nextPath, current.stationName, line, t);
      t := RelaxAll(t, node, nextPath, current.stationName, line);
    }
  }

  /** The queue `queue` holds the objects `sd[q[0]], sd[q[1]], ...`. */
  predicate Tracks(queue: seq<Station>, sd: seq<Station>, q: seq<nat>) {
    |queue| == |q| && forall k :: 0 <= k < |q| ==> q[k] < |sd| && queue[k] == sd[q[k]]
  }

  lemma TracksDistances(queue: seq<Station>, sd: seq<Station>, q: seq<nat>, s: seq<StationState>)
    requires Tracks(queue, sd, q) && Matches(sd, s)
    ensures QueueOk(s, q) && DistancesOf(queue) == QueueDistances(s, q)
  {
  }

  lemma TracksRemove(queue: seq<Station>, sd: seq<Station>, q: seq<nat>, m: nat)
    requires Tracks(queue, sd, q) && m < |q|
    ensures Tracks(queue[..m] + queue[m + 1..], sd, q[..m] + q[m + 1..])
  {
    var queue', q' := queue[..m] + queue[m + 1..], q[..m] + q[m + 1..];
    forall k | 0 <= k < |q'|
      ensures q'[k] < |sd| && queue'[k] == sd[q'[k]]
    {
      if k < m {
        assert q'[k] == q[k] && queue'[k] == queue[k];
      } else {
        assert q'[k] == q[k + 1] && queue'[k] == queue[k + 1];
      }
    }
  }

  /** One round of `Run` on a non-empty queue, unfolded. */
  lemma RunStep(s: seq<StationState>, q: seq<nat>, finish: StationName, m: nat)
    requires QueueOk(s, q) && q != [] && m == FirstMinimum(QueueDistances(s, q))
    ensures var ci := q[m];
            var rest := q[..m] + q[m + 1..];
            if s[ci].distance == Inf || s[ci].name == finish then Run(s, q, finish).states == s
            else
              var t := RelaxNeighbours(s, ci, s[ci].neighbours, |s[ci].neighbours|);
              QueueOk(t, rest) && Run(s, q, finish).states == Run(t, rest, finish).states
  {
  }

  /**
    Lines 57-76: the queue starts as every station; the first station of
    minimal distance leaves it and, unless it is unreachable or `finish`,
    its neighbours are relaxed.
  */
  method RunQueue(sd: seq<Station>, finish: StationName, ghost s: seq<StationState>)
    requires Matches(sd, s) && Distinct(sd)
    modifies set x | x in sd
    ensures Matches(sd, Run(s, AllIndices(|s|), finish).states)
  {
    var queue := sd;
    ghost var q := AllIndices(|s|);
    ghost var cur := s;
    ghost var target := Run(s, q, finish).states;
    while queue != []
      invariant Matches(sd, cur) && Tracks(queue, sd, q) && QueueOk(cur, q)
      invariant Run(cur, q, finish).states == target
      decreases |queue|
    {
      TracksDistances(queue, sd, q, cur);
      var m := FirstMin(queue);
      RunStep(cur, q, finish, m);
      var currentSmallest := queue[m];
      ghost var ci := q[m];
      TracksRemove(queue, sd, q, m);
      queue := queue[..m] + queue[m + 1..];
      q := q[..m] + q[m + 1..];
      if currentSmallest.distance == Inf || currentSmallest.stationName == finish {
        break;
      }
      RelaxNeighbourhood(sd, currentSmallest, ci, cur);
      cur := RelaxNeighbours(cur, ci, cur[ci].neighbours, |cur[ci].neighbours|);
    }
  }

  /**
    Lines 79-106: start from `finish`, prepend each `previous` with its
    distance and line, and return the distance of `finish` as the total.
  */
  method BacktrackStations(sd: seq<Station>, finish: StationName, ghost s: seq<StationState>)
    returns (route: Route)
    requires Matches(sd, s) && WellLinked(s) && finish in Names(s)
    ensures route == Backtrack(s, finish)
  {
    MatchesNames(sd, s);
    var tempIndex := FirstStation(sd, finish);
    var tempValue := sd[tempIndex.value];
    var currentPrev := tempValue.previous;
    var finishIndex := FirstStation(sd, finish);
    var finishStation := sd[finishIndex.value];
    var shortestPath := [finish];
    var steppedDist := [finishStation.distance];
    var steppedLine := [finishStation.viaLine];
    ghost var walked := Walk(s, currentPrev, shortestPath, steppedDist, steppedLine);
    while currentPrev.Some?
      invariant |steppedLine| > 0
      invariant currentPrev.Some? ==> Known(s, currentPrev.value)
      invariant Walk(s, currentPrev, shortestPath, steppedDist, steppedLine) == walked
      decreases Rank(s, currentPrev)
    {
      var index := FirstStation(sd, currentPrev.value);
      var station1 := sd[index.value];
      shortestPath := [currentPrev.value] + shortestPath;
      steppedDist := [station1.distance] + steppedDist;
      if station1.viaLine.Some? {
        steppedLine := [station1.viaLine] + steppedLine;
      } else {
        steppedLine := [steppedLine[0]] + steppedLine;
      }
      currentPrev := station1.previous;
    }
    route := Route(shortestPath, steppedDist, steppedLine, finishStation.distance);
  }

  /**
    `Graph.dijkstra(start, finish)` on the graph `g`: checks both stops,
    builds one station object per node record, wires the neighbours, runs
    the relaxation loop and walks back from `finish`.
  */
  method Dijkstra(g: Graph, start: StationName, finish: StationName) returns (r: Result<Route>)
    ensures r == DijkstraResult(g, start, finish)
  {
    var stations := Stations(g);
    if start !in stations || finish !in stations {
      return Failure(AssertionFailed);
    }
    var stationData := BuildStations(g, start);
    ghost var initial := InitialStates(g, start, |g.nodes|);
    var ok := WireNeighbours(stationData, g.edges, initial);
    if !ok {
      return Failure(NoneDereference);
    }
    ghost var ready := AddEdges(initial, g.edges, |g.edges|).value;
    var allStationData := stationData;
    RunQueue(stationData, finish, ready);
    SolveKeeps(g, start, finish);
    var route := BacktrackStations(allStationData, finish, Run(ready, AllIndices(|ready|), finish).states);
    r := Success(route);
  }
}
