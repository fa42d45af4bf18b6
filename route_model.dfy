/**
  A value-level description of what Algorithms.py computes: the graph
  records, one state per `Station` object, and `Graph.dijkstra` step by
  step (initialisation, neighbour wiring, the relaxation loop and the walk
  back along `previous`). The imperative model in module Algorithms is
  proved to return exactly what `DijkstraResult` below returns.

  There is one `StationState` per node record, in the order of the
  `station_data` list, so a station that lies on several lines appears
  several times, exactly as the original builds it.
*/
module RouteModel {

  datatype Option<T> = None | Some(value: T)

  /** A travel time: a whole number of minutes, or Python's float("inf"). */
  datatype Dist = Fin(n: nat) | Inf

  /** Python's `<` on such numbers: nothing is below inf, inf is below nothing. */
  predicate Less(a: Dist, b: Dist) {
    a.Fin? && (b.Inf? || a.n < b.n)
  }

  /** Python's `+` on such numbers: inf absorbs the weight. */
  function Plus(d: Dist, w: nat): Dist {
    match d
    case Inf => Inf
    case Fin(n) => Fin(n + w)
  }

  type StationName = string
  type LineName = string

  /** An `Edge` namedtuple: (line, start, end, weight). */
  datatype Edge = Edge(line: LineName, start: StationName, end: StationName, weight: nat)

  /** A `Node` namedtuple: (line, station). */
  datatype NodeRecord = NodeRecord(line: LineName, station: StationName)

  datatype Graph = Graph(edges: seq<Edge>, nodes: seq<NodeRecord>)

  /** How `Graph.dijkstra` can fail: a failed `assert`, or an attribute read on None. */
  datatype RouteError = AssertionFailed | NoneDereference

  datatype Result<T> = Success(value: T) | Failure(error: RouteError)

  /**
    `Graph.__init__`: every raw tuple becomes the named record with the same
    fields, in the same order.
  */
  function NewGraph(edges: seq<(LineName, StationName, StationName, nat)>,
                    nodes: seq<(LineName, StationName)>): (g: Graph)
    ensures |g.edges| == |edges| && |g.nodes| == |nodes|
    ensures forall i :: 0 <= i < |edges| ==>
      g.edges[i] == Edge(edges[i].0, edges[i].1, edges[i].2, edges[i].3)
    ensures forall i :: 0 <= i < |nodes| ==> g.nodes[i] == NodeRecord(nodes[i].0, nodes[i].1)
  {
    Graph(seq(|edges|, i requires 0 <= i < |edges| => Edge(edges[i].0, edges[i].1, edges[i].2, edges[i].3)),
          seq(|nodes|, i requires 0 <= i < |nodes| => NodeRecord(nodes[i].0, nodes[i].1)))
  }

  /** `self.stations`: the station name of every node record, in order. */
  function Stations(g: Graph): seq<StationName> {
    seq(|g.nodes|, i requires 0 <= i < |g.nodes| => g.nodes[i].station)
  }

  /** A neighbour entry `(node, weight, line)` as `add_neighbour` stores it. */
  datatype Neighbour = Neighbour(station: StationName, weight: nat, line: LineName)

  /** The fields of one `Station` object. */
  datatype StationState = StationState(
    name: StationName,
    trainLine: LineName,
    distance: Dist,
    neighbours: seq<Neighbour>,
    previous: Option<StationName>,
    viaLine: Option<LineName>)

  function Names(s: seq<StationState>): seq<StationName> {
    seq(|s|, i requires 0 <= i < |s| => s[i].name)
  }

  /**
    `next((x for x in ... if x.station_name == name), None)`, as the index of
    the first station with that name.
  */
  function FirstIndex(names: seq<StationName>, name: StationName): (r: Option<nat>)
    ensures r.Some? ==> r.value < |names| && names[r.value] == name
    ensures r.Some? ==> forall k :: 0 <= k < r.value ==> names[k] != name
    ensures r.None? ==> name !in names
  {
    if |names| == 0 then None
    else if names[0] == name then Some(0)
    else
      match FirstIndex(names[1..], name)
      case None => None
      case Some(k) => Some(k + 1)
  }

  // ---------------------------------------------------------------------
  // Initialisation (lines 44-49)

  /** A fresh `Station` for a node record, with distance 0 iff it is `start`. */
  function NewStation(rec: NodeRecord, start: StationName): StationState {
    StationState(rec.station, rec.line, if rec.station == start then Fin(0) else Inf, [], None, None)
  }

  /**
    `station_data` after the first `k` node records were each put at the
    front with `add_first`: the records appear in reverse order.
  */
  function InitialStates(g: Graph, start: StationName, k: nat): (s: seq<StationState>)
    requires k <= |g.nodes|
    ensures |s| == k
    ensures forall i :: 0 <= i < k ==> s[i] == NewStation(g.nodes[k - 1 - i], start)
  {
    if k == 0 then [] else [NewStation(g.nodes[k - 1], start)] + InitialStates(g, start, k - 1)
  }

  // ---------------------------------------------------------------------
  // Neighbours (lines 18-19, 51-55)

  /** `add_neighbour`: `add_first` on the neighbour list. */
  function WithNeighbour(st: StationState, nb: Neighbour): StationState {
    st.(neighbours := [nb] + st.neighbours)
  }

  /**
    One edge `(line, a, b, w)`: `(b, w, line)` goes to the first station named
    `a`, then `(a, w, line)` to the first station named `b`; a missing name
    makes `next` return None and the call on it fails. The second search runs
    over the updated list, whose names are those of `s`.
  */
  function AddEdge(s: seq<StationState>, e: Edge): Result<seq<StationState>> {
    match FirstIndex(Names(s), e.start)
    case None => Failure(NoneDereference)
    case Some(i) =>
      var s1 := s[i := WithNeighbour(s[i], Neighbour(e.end, e.weight, e.line))];
      match FirstIndex(Names(s), e.end)
      case None => Failure(NoneDereference)
      case Some(j) => Success(s1[j := WithNeighbour(s1[j], Neighbour(e.start, e.weight, e.line))])
  }

  /** The station list after the first `k` edges were wired up. */
  function AddEdges(s: seq<StationState>, edges: seq<Edge>, k: nat): Result<seq<StationState>>
    requires k <= |edges|
  {
    if k == 0 then Success(s)
    else
      match AddEdges(s, edges, k - 1)
      case Failure(err) => Failure(err)
      case Success(t) => AddEdge(t, edges[k - 1])
  }

  // ---------------------------------------------------------------------
  // Relaxation (lines 68-76)

  /**
    The test and update of lines 72-76 applied to one station: it fires when
    the name matches and `nextPath < distance`, and then sets the distance to
    `nextPath + 1` and `previous` and `via_line` together.
  */
  function Relaxed(st: StationState, node: StationName, nextPath: Dist,
                   from: StationName, line: LineName): StationState
  {
    if st.name == node && Less(nextPath, st.distance)
    then st.(distance := Plus(nextPath, 1), previous := Some(from), viaLine := Some(line))
    else st
  }

  /** The inner `for station in station_data.traverse_all()` loop. */
  function RelaxAll(s: seq<StationState>, node: StationName, nextPath: Dist,
                    from: StationName, line: LineName): seq<StationState>
  {
    seq(|s|, i requires 0 <= i < |s| => Relaxed(s[i], node, nextPath, from, line))
  }

  /**
    The station list after the first `k` entries of `nbrs`, the neighbour
    list of the current station `s[ci]`, were processed; `next_path` is read
    from the current station's distance at each entry (line 70).
  */
  function RelaxNeighbours(s: seq<StationState>, ci: nat, nbrs: seq<Neighbour>, k: nat): (r: seq<StationState>)
    requires ci < |s| && k <= |nbrs|
    ensures |r| == |s|
  {
    if k == 0 then s
    else
      var t := RelaxNeighbours(s, ci, nbrs, k - 1);
      RelaxAll(t, nbrs[k - 1].station, Plus(t[ci].distance, nbrs[k - 1].weight), t[ci].name, nbrs[k - 1].line)
  }

  // ---------------------------------------------------------------------
  // The main loop (lines 57-76)

  /** Python's `a <= b` on distances. */
  predicate AtMost(a: Dist, b: Dist) {
    !Less(b, a)
  }

  /**
    `min(queue, key=distance)`: the position of the first element whose
    distance is minimal.
  */
  function FirstMinimum(ds: seq<Dist>): (m: nat)
    requires |ds| > 0
    ensures m < |ds|
    ensures forall k :: 0 <= k < |ds| ==> AtMost(ds[m], ds[k])
    ensures forall k :: 0 <= k < m ==> Less(ds[m], ds[k])
  {
    if |ds| == 1 then 0
    else
      var m := 1 + FirstMinimum(ds[1..]);
      if AtMost(ds[0], ds[m]) then 0 else m
  }

  /** The queue holds indices into the station list. */
  predicate QueueOk(s: seq<StationState>, q: seq<nat>) {
    forall k :: 0 <= k < |q| ==> q[k] < |s|
  }

  function QueueDistances(s: seq<StationState>, q: seq<nat>): seq<Dist>
    requires QueueOk(s, q)
  {
    seq(|q|, k requires 0 <= k < |q| => s[q[k]].distance)
  }

  /** The station list after the loop, and the stations it removed, in order. */
  datatype Search = Search(states: seq<StationState>, visited: seq<nat>)

  /**
    `while queue`: remove the first station of minimal distance; stop if its
    distance is inf or it is `finish`; otherwise relax along its neighbours.
  */
  function Run(s: seq<StationState>, q: seq<nat>, finish: StationName): (r: Search)
    requires QueueOk(s, q)
    ensures |r.states| == |s|
    decreases |q|
  {
    if q == [] then Search(s, [])
    else
      var m := FirstMinimum(QueueDistances(s, q));
      var ci := q[m];
      var rest := q[..m] + q[m + 1..];
      if s[ci].distance == Inf || s[ci].name == finish then Search(s, [ci])
      else
        var t := RelaxNeighbours(s, ci, s[ci].neighbours, |s[ci].neighbours|);
        assert QueueOk(t, rest);
        var r := Run(t, rest, finish);
        Search(r.states, [ci] + r.visited)
  }

  /** `queue = station_data.traverse_all()`: every station, in list order. */
  function AllIndices(n: nat): (q: seq<nat>)
    ensures |q| == n && forall k :: 0 <= k < n ==> q[k] == k
  {
    seq(n, k requires 0 <= k < n => k)
  }

  // ---------------------------------------------------------------------
  // Invariants of the station list that the loop keeps

  /** Stations with the same name agree on distance, previous and via_line. */
  predicate Consistent(s: seq<StationState>) {
    forall i, j :: 0 <= i < |s| && 0 <= j < |s| && s[i].name == s[j].name ==>
      s[i].distance == s[j].distance && s[i].previous == s[j].previous && s[i].viaLine == s[j].viaLine
  }

  /** The first station named `p` exists and is strictly closer than `d`. */
  predicate CloserThan(s: seq<StationState>, p: StationName, d: Dist) {
    match FirstIndex(Names(s), p)
    case None => false
    case Some(j) => s[j].distance.Fin? && d.Fin? && s[j].distance.n < d.n
  }

  /** Every `previous` names a station that is strictly closer: the links cannot cycle. */
  predicate WellLinked(s: seq<StationState>) {
    forall i :: 0 <= i < |s| && s[i].previous.Some? ==> CloserThan(s, s[i].previous.value, s[i].distance)
  }

  /**
    `previous` and `via_line` are set together; a station never reached keeps
    its initial distance, and `start` is never reached from elsewhere.
  */
  predicate Settled(s: seq<StationState>, start: StationName) {
    forall i :: 0 <= i < |s| ==>
      && (s[i].previous.None? <==> s[i].viaLine.None?)
      && (s[i].previous.None? ==> s[i].distance == (if s[i].name == start then Fin(0) else Inf))
      && (s[i].name == start ==> s[i].previous.None?)
  }

  predicate Inv(s: seq<StationState>, start: StationName) {
    Consistent(s) && WellLinked(s) && Settled(s, start)
  }

  /** Relaxation changed neither the names, the lines nor the neighbour lists. */
  predicate SameLayout(s: seq<StationState>, t: seq<StationState>) {
    |s| == |t| &&
    forall i :: 0 <= i < |s| ==>
      t[i].name == s[i].name && t[i].trainLine == s[i].trainLine && t[i].neighbours == s[i].neighbours
  }

  /** No distance in `t` is above the one in `s`. */
  predicate NoWorse(t: seq<StationState>, s: seq<StationState>)
    requires |t| == |s|
  {
    forall i :: 0 <= i < |s| ==> AtMost(t[i].distance, s[i].distance)
  }

  lemma NamesOfSameLayout(s: seq<StationState>, t: seq<StationState>)
    requires SameLayout(s, t)
    ensures Names(s) == Names(t)
  {
  }

  /** `nextPath` is the distance of a station named `from` plus a weight. */
  predicate FromStation(s: seq<StationState>, from: StationName, nextPath: Dist) {
    match FirstIndex(Names(s), from)
    case None => false
    case Some(j) => nextPath.Fin? ==> s[j].distance.Fin? && s[j].distance.n <= nextPath.n
  }

  /** A relaxation pass keeps names, lines and neighbour lists, and lowers distances or leaves them. */
  lemma RelaxAllLayout(s: seq<StationState>, node: StationName, nextPath: Dist, from: StationName, line: LineName)
    ensures SameLayout(s, RelaxAll(s, node, nextPath, from, line))
    ensures NoWorse(RelaxAll(s, node, nextPath, from, line), s)
  {
  }

  lemma LayoutTrans(a: seq<StationState>, b: seq<StationState>, c: seq<StationState>)
    requires SameLayout(a, b) && SameLayout(b, c) && NoWorse(b, a) && NoWorse(c, b)
    ensures SameLayout(a, c) && NoWorse(c, a)
  {
  }

  lemma {:induction false} RelaxNeighboursLayout(s: seq<StationState>, ci: nat, nbrs: seq<Neighbour>, k: nat)
    requires ci < |s| && k <= |nbrs|
    ensures SameLayout(s, RelaxNeighbours(s, ci, nbrs, k))
    ensures NoWorse(RelaxNeighbours(s, ci, nbrs, k), s)
  {
    if k > 0 {
      var t := RelaxNeighbours(s, ci, nbrs, k - 1);
      RelaxNeighboursLayout(s, ci, nbrs, k - 1);
      var nb := nbrs[k - 1];
      RelaxAllLayout(t, nb.station, Plus(t[ci].distance, nb.weight), t[ci].name, nb.line);
      LayoutTrans(s, t, RelaxNeighbours(s, ci, nbrs, k));
    }
  }

  /** One round of `Run` that goes on: the chosen station is visited first, then the rest of the queue. */
  lemma RunGoesOn(s: seq<StationState>, q: seq<nat>, finish: StationName)
    requires QueueOk(s, q) && q != []
    requires var ci := q[FirstMinimum(QueueDistances(s, q))];
             !(s[ci].distance == Inf || s[ci].name == finish)
    ensures var m := FirstMinimum(QueueDistances(s, q));
            var ci := q[m];
            var rest := q[..m] + q[m + 1..];
            var t := RelaxNeighbours(s, ci, s[ci].neighbours, |s[ci].neighbours|);
            && QueueOk(t, rest)
            && Run(s, q, finish).visited == [ci] + Run(t, rest, finish).visited
            && Run(s, q, finish).states == Run(t, rest, finish).states
  {
  }

  lemma {:induction false} RunLayout(s: seq<StationState>, q: seq<nat>, finish: StationName)
    requires QueueOk(s, q)
    ensures SameLayout(s, Run(s, q, finish).states)
    ensures NoWorse(Run(s, q, finish).states, s)
    decreases |q|
  {
    if q != [] {
      var m := FirstMinimum(QueueDistances(s, q));
      var ci := q[m];
      var rest := q[..m] + q[m + 1..];
      if !(s[ci].distance == Inf || s[ci].name == finish) {
        var t := RelaxNeighbours(s, ci, s[ci].neighbours, |s[ci].neighbours|);
        RunGoesOn(s, q, finish);
        RelaxNeighboursLayout(s, ci, s[ci].neighbours, |s[ci].neighbours|);
        RunLayout(t, rest, finish);
        LayoutTrans(s, t, Run(t, rest, finish).states);
      }
    }
  }

  lemma {:induction false} RelaxAllKeeps(s: seq<StationState>, start: StationName, node: StationName,
                                         nextPath: Dist, from: StationName, line: LineName)
    requires Inv(s, start) && FromStation(s, from, nextPath)
    ensures Inv(RelaxAll(s, node, nextPath, from, line), start)
  {
    var t := RelaxAll(s, node, nextPath, from, line);
    RelaxAllLayout(s, node, nextPath, from, line);
    NamesOfSameLayout(s, t);
    forall i | 0 <= i < |t| && t[i].previous.Some?
      ensures CloserThan(t, t[i].previous.value, t[i].distance)
    {
      if t[i] == s[i] {
        var j := FirstIndex(Names(s), s[i].previous.value).value;
        assert AtMost(t[j].distance, s[j].distance);
      } else {
        var j := FirstIndex(Names(s), from).value;
        assert AtMost(t[j].distance, s[j].distance);
      }
    }
  }

  lemma {:induction false} RelaxNeighboursKeeps(s: seq<StationState>, start: StationName, ci: nat,
                                                nbrs: seq<Neighbour>, k: nat)
    requires ci < |s| && k <= |nbrs| && Inv(s, start)
    ensures Inv(RelaxNeighbours(s, ci, nbrs, k), start)
  {
    if k > 0 {
      var t := RelaxNeighbours(s, ci, nbrs, k - 1);
      RelaxNeighboursKeeps(s, start, ci, nbrs, k - 1);
      RelaxNeighboursLayout(s, ci, nbrs, k - 1);
      var nb := nbrs[k - 1];
      assert Names(t)[ci] == t[ci].name;
      assert FromStation(t, t[ci].name, Plus(t[ci].distance, nb.weight));
      RelaxAllKeeps(t, start, nb.station, Plus(t[ci].distance, nb.weight), t[ci].name, nb.line);
    }
  }

  lemma {:induction false} RunKeeps(s: seq<StationState>, start: StationName, q: seq<nat>, finish: StationName)
    requires QueueOk(s, q) && Inv(s, start)
    ensures Inv(Run(s, q, finish).states, start)
    decreases |q|
  {
    if q != [] {
      var m := FirstMinimum(QueueDistances(s, q));
      var ci := q[m];
      var rest := q[..m] + q[m + 1..];
      if !(s[ci].distance == Inf || s[ci].name == finish) {
        var t := RelaxNeighbours(s, ci, s[ci].neighbours, |s[ci].neighbours|);
        RunGoesOn(s, q, finish);
        RelaxNeighboursKeeps(s, start, ci, s[ci].neighbours, |s[ci].neighbours|);
        RunKeeps(t, start, rest, finish);
      }
    }
  }

  // ---------------------------------------------------------------------
  // Backtracking (lines 79-106)

  /** The first station named `p` exists and has a finite distance. */
  predicate Known(s: seq<StationState>, p: StationName) {
    match FirstIndex(Names(s), p)
    case None => false
    case Some(j) => s[j].distance.Fin?
  }

  /** The state of the first station named `p`. */
  function Lookup(s: seq<StationState>, p: StationName): StationState
    requires p in Names(s)
  {
    s[FirstIndex(Names(s), p).value]
  }

  function Rank(s: seq<StationState>, cur: Option<StationName>): nat {
    if cur.Some? && Known(s, cur.value) then Lookup(s, cur.value).distance.n + 1 else 0
  }

  /**
    The `while True` loop of lines 94-104: while `current_prev` is a name,
    prepend it, its distance, and its `via_line` (or, when that is None, the
    line now at the head of the line list), then follow its `previous`.
  */
  function Walk(s: seq<StationState>, cur: Option<StationName>, path: seq<StationName>,
                times: seq<Dist>, lines: seq<Option<LineName>>): (r: (seq<StationName>, seq<Dist>, seq<Option<LineName>>))
    requires WellLinked(s) && |lines| > 0
    requires cur.Some? ==> Known(s, cur.value)
    decreases Rank(s, cur)
  {
    match cur
    case None => (path, times, lines)
    case Some(p) =>
      var st := Lookup(s, p);
      var line := if st.viaLine.Some? then st.viaLine else lines[0];
      Walk(s, st.previous, [p] + path, [st.distance] + times, [line] + lines)
  }

  /** The four results of `dijkstra`. */
  datatype Route = Route(path: seq<StationName>, times: seq<Dist>, lines: seq<Option<LineName>>, total: Dist)

  /** Lines 84-106: start from `finish`, walk back, return the total of `finish`. */
  function Backtrack(s: seq<StationState>, finish: StationName): Route
    requires WellLinked(s) && finish in Names(s)
  {
    var f := Lookup(s, finish);
    var (path, times, lines) := Walk(s, f.previous, [finish], [f.distance], [f.viaLine]);
    Route(path, times, lines, f.distance)
  }

  // ---------------------------------------------------------------------
  // The whole of `Graph.dijkstra`

  /** Everything up to and including the main loop: the final station list. */
  function Solve(g: Graph, start: StationName, finish: StationName): Result<Search> {
    if start !in Stations(g) || finish !in Stations(g) then Failure(AssertionFailed)
    else
      match AddEdges(InitialStates(g, start, |g.nodes|), g.edges, |g.edges|)
      case Failure(err) => Failure(err)
      case Success(ready) => Success(Run(ready, AllIndices(|ready|), finish))
  }

  /** `dijkstra(start, finish)`: the route, cumulative times, lines and total. */
  function DijkstraResult(g: Graph, start: StationName, finish: StationName): Result<Route> {
    match Solve(g, start, finish)
    case Failure(err) => Failure(err)
    case Success(search) =>
      SolveKeeps(g, start, finish);
      Success(Backtrack(search.states, finish))
  }

  lemma InitialInv(g: Graph, start: StationName)
    ensures Inv(InitialStates(g, start, |g.nodes|), start)
  {
  }

  lemma InitialNames(g: Graph, start: StationName, name: StationName)
    requires name in Stations(g)
    ensures name in Names(InitialStates(g, start, |g.nodes|))
  {
    var s := InitialStates(g, start, |g.nodes|);
    var i :| 0 <= i < |g.nodes| && Stations(g)[i] == name;
    assert Names(s)[|g.nodes| - 1 - i] == name;
  }

  /** Wiring neighbours changes neither the names nor the distance fields. */
  lemma {:induction false} AddEdgesLayout(s: seq<StationState>, edges: seq<Edge>, k: nat)
    requires k <= |edges| && AddEdges(s, edges, k).Success?
    ensures |AddEdges(s, edges, k).value| == |s|
    ensures forall i :: 0 <= i < |s| ==>
      AddEdges(s, edges, k).value[i] == s[i].(neighbours := AddEdges(s, edges, k).value[i].neighbours)
  {
    if k > 0 {
      AddEdgesLayout(s, edges, k - 1);
    }
  }

  /** Once an edge has failed to wire up, every longer prefix fails too. */
  lemma {:induction false} AddEdgesFailureSticks(s: seq<StationState>, edges: seq<Edge>, k: nat, m: nat)
    requires k <= m <= |edges| && AddEdges(s, edges, k) == Failure(NoneDereference)
    ensures AddEdges(s, edges, m) == Failure(NoneDereference)
    decreases m - k
  {
    if k < m {
      AddEdgesFailureSticks(s, edges, k + 1, m);
    }
  }

  lemma NeighboursIrrelevant(s: seq<StationState>, t: seq<StationState>, start: StationName)
    requires |s| == |t| && Inv(s, start)
    requires forall i :: 0 <= i < |s| ==> t[i] == s[i].(neighbours := t[i].neighbours)
    ensures Inv(t, start)
  {
    assert Names(s) == Names(t);
  }

  lemma SolveKeeps(g: Graph, start: StationName, finish: StationName)
    requires Solve(g, start, finish).Success?
    ensures Inv(Solve(g, start, finish).value.states, start)
    ensures finish in Names(Solve(g, start, finish).value.states)
  {
    var init := InitialStates(g, start, |g.nodes|);
    InitialInv(g, start);
    InitialNames(g, start, finish);
    AddEdgesLayout(init, g.edges, |g.edges|);
    var ready := AddEdges(init, g.edges, |g.edges|).value;
    NeighboursIrrelevant(init, ready, start);
    assert Names(init) == Names(ready);
    RunKeeps(ready, start, AllIndices(|ready|), finish);
    RunLayout(ready, AllIndices(|ready|), finish);
    NamesOfSameLayout(ready, Run(ready, AllIndices(|ready|), finish).states);
  }
}
