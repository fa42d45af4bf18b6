/**
  What `Graph.dijkstra` promises, proved about the value-level description
  in RouteModel: when it fails and how, what the neighbour wiring builds,
  how the main loop visits stations, and the shape of the returned route.
*/
module RouteProperties {
  import opened RouteModel

  // ---------------------------------------------------------------------
  // Failure: unknown stops and unknown edge endpoints

  lemma InitialNamesIff(g: Graph, start: StationName, name: StationName)
    ensures name in Names(InitialStates(g, start, |g.nodes|)) <==> name in Stations(g)
  {
    var s := InitialStates(g, start, |g.nodes|);
    if name in Stations(g) {
      InitialNames(g, start, name);
    }
    if name in Names(s) {
      var i :| 0 <= i < |s| && Names(s)[i] == name;
      assert Stations(g)[|g.nodes| - 1 - i] == name;
    }
  }

  /**
    After initialisation every station named `start` is at 0, every other at
    inf, and none has neighbours, a previous station or a line.
  */
  lemma InitialStations(g: Graph, start: StationName)
    ensures var s := InitialStates(g, start, |g.nodes|);
      && |s| == |g.nodes|
      && forall i :: 0 <= i < |s| ==>
           && s[i].name == g.nodes[|g.nodes| - 1 - i].station
           && s[i].trainLine == g.nodes[|g.nodes| - 1 - i].line
           && s[i].distance == (if s[i].name == start then Fin(0) else Inf)
           && s[i].neighbours == [] && s[i].previous == None && s[i].viaLine == None
  {
  }

  /** One edge wires up exactly when both its endpoints name stations; otherwise it is a None dereference. */
  lemma AddEdgeSucceeds(s: seq<StationState>, e: Edge)
    ensures AddEdge(s, e).Success? <==> e.start in Names(s) && e.end in Names(s)
    ensures AddEdge(s, e).Failure? ==> AddEdge(s, e).error == NoneDereference
  {
    match FirstIndex(Names(s), e.start)
    case None =>
    case Some(i) =>
      var s1 := s[i := WithNeighbour(s[i], Neighbour(e.end, e.weight, e.line))];
      assert Names(s1) == Names(s);
  }

  /** Wiring neighbours leaves every name where it was. */
  lemma AddEdgesNames(s: seq<StationState>, edges: seq<Edge>, k: nat)
    requires k <= |edges| && AddEdges(s, edges, k).Success?
    ensures Names(AddEdges(s, edges, k).value) == Names(s)
  {
    AddEdgesLayout(s, edges, k);
  }

  /** Both endpoints of `e` name stations of `s`. */
  predicate EndsKnown(s: seq<StationState>, e: Edge) {
    e.start in Names(s) && e.end in Names(s)
  }

  /** Wiring succeeds exactly when every endpoint of every edge names a station; otherwise it is a None dereference. */
  lemma {:induction false} AddEdgesSucceeds(s: seq<StationState>, edges: seq<Edge>, k: nat)
    requires k <= |edges|
    ensures AddEdges(s, edges, k).Success? ==> forall j :: 0 <= j < k ==> EndsKnown(s, edges[j])
    ensures (forall j :: 0 <= j < k ==> EndsKnown(s, edges[j])) ==> AddEdges(s, edges, k).Success?
    ensures AddEdges(s, edges, k).Failure? ==> AddEdges(s, edges, k).error == NoneDereference
  {
    if k > 0 {
      AddEdgesSucceeds(s, edges, k - 1);
      var r := AddEdges(s, edges, k - 1);
      if r.Success? {
        AddEdgesNames(s, edges, k - 1);
        AddEdgeSucceeds(r.value, edges[k - 1]);
      }
    }
  }

  /**
    `dijkstra` fails its assertion exactly when `start` or `finish` is not a
    station name, fails on None exactly when both are but some edge endpoint
    is not, and returns a route otherwise.
  */
  lemma DijkstraOutcome(g: Graph, start: StationName, finish: StationName)
    ensures DijkstraResult(g, start, finish) == Failure(AssertionFailed) <==>
            start !in Stations(g) || finish !in Stations(g)
    ensures DijkstraResult(g, start, finish) == Failure(NoneDereference) <==>
            start in Stations(g) && finish in Stations(g) &&
            exists j :: 0 <= j < |g.edges| && (g.edges[j].start !in Stations(g) || g.edges[j].end !in Stations(g))
    ensures DijkstraResult(g, start, finish).Success? <==>
            start in Stations(g) && finish in Stations(g) &&
            forall j :: 0 <= j < |g.edges| ==> g.edges[j].start in Stations(g) && g.edges[j].end in Stations(g)
  {
    var init := InitialStates(g, start, |g.nodes|);
    AddEdgesSucceeds(init, g.edges, |g.edges|);
    forall name: StationName
      ensures name in Names(init) <==> name in Stations(g)
    {
      InitialNamesIff(g, start, name);
    }
    assert forall j :: 0 <= j < |g.edges| ==>
      (EndsKnown(init, g.edges[j]) <==> g.edges[j].start in Stations(g) && g.edges[j].end in Stations(g));
  }

  // ---------------------------------------------------------------------
  // Neighbour wiring

  /** The entries one edge contributes to the station named `x`, newest first. */
  function EdgeEntries(e: Edge, x: StationName): seq<Neighbour> {
    (if e.end == x then [Neighbour(e.start, e.weight, e.line)] else []) +
    (if e.start == x then [Neighbour(e.end, e.weight, e.line)] else [])
  }

  /** All entries the edges contribute to `x`, the last edge's first. */
  function Incident(edges: seq<Edge>, x: StationName): seq<Neighbour> {
    if edges == [] then [] else EdgeEntries(edges[|edges| - 1], x) + Incident(edges[..|edges| - 1], x)
  }

  /** Whether `s[i]` is the first station in the list with its name. */
  predicate FirstCopy(s: seq<StationState>, i: nat)
    requires i < |s|
  {
    FirstIndex(Names(s), s[i].name) == Some(i)
  }

  /** The entries one successful edge adds: to the first station of each endpoint, the end's entry in front. */
  lemma AddEdgeNeighbours(t: seq<StationState>, e: Edge)
    requires AddEdge(t, e).Success?
    ensures |AddEdge(t, e).value| == |t| && Names(AddEdge(t, e).value) == Names(t)
    ensures forall i :: 0 <= i < |t| ==>
      AddEdge(t, e).value[i] == t[i].(neighbours := AddEdge(t, e).value[i].neighbours)
    ensures forall i :: 0 <= i < |t| ==>
      AddEdge(t, e).value[i].neighbours ==
        (if Some(i) == FirstIndex(Names(t), e.end) then [Neighbour(e.start, e.weight, e.line)] else []) +
        (if Some(i) == FirstIndex(Names(t), e.start) then [Neighbour(e.end, e.weight, e.line)] else []) +
        t[i].neighbours
  {
    var i1 := FirstIndex(Names(t), e.start).value;
    var s1 := t[i1 := WithNeighbour(t[i1], Neighbour(e.end, e.weight, e.line))];
    assert Names(s1) == Names(t);
    var u := AddEdge(t, e).value;
    assert Names(u) == Names(t);
  }

  /**
    After wiring the first `k` edges into stations that had none, the first
    station of each name holds every entry incident to that name, newest
    first, and every other copy of the name holds none.
  */
  lemma {:induction false} AddEdgesNeighbours(s: seq<StationState>, edges: seq<Edge>, k: nat)
    requires k <= |edges| && AddEdges(s, edges, k).Success?
    requires forall i :: 0 <= i < |s| ==> s[i].neighbours == []
    ensures |AddEdges(s, edges, k).value| == |s|
    ensures forall i :: 0 <= i < |s| ==>
      AddEdges(s, edges, k).value[i].neighbours == (if FirstCopy(s, i) then Incident(edges[..k], s[i].name) else [])
  {
    AddEdgesNames(s, edges, k);
    if k > 0 {
      AddEdgesNeighbours(s, edges, k - 1);
      AddEdgesNames(s, edges, k - 1);
      var t := AddEdges(s, edges, k - 1).value;
      var e := edges[k - 1];
      assert AddEdges(s, edges, k) == AddEdge(t, e);
      AddEdgeNeighbours(t, e);
      var u := AddEdge(t, e).value;
      forall i | 0 <= i < |s|
        ensures u[i].neighbours == (if FirstCopy(s, i) then Incident(edges[..k], s[i].name) else [])
      {
        IncidentStep(edges, k, s[i].name);
        EntriesAt(s, e, i);
      }
    }
  }

  /** Only the first station of a name receives entries, and it receives all of them. */
  lemma EntriesAt(s: seq<StationState>, e: Edge, i: nat)
    requires i < |s|
    ensures (if Some(i) == FirstIndex(Names(s), e.end) then [Neighbour(e.start, e.weight, e.line)] else []) +
            (if Some(i) == FirstIndex(Names(s), e.start) then [Neighbour(e.end, e.weight, e.line)] else []) ==
            (if FirstCopy(s, i) then EdgeEntries(e, s[i].name) else [])
  {
    assert Names(s)[i] == s[i].name;
  }

  lemma IncidentStep(edges: seq<Edge>, k: nat, x: StationName)
    requires 0 < k <= |edges|
    ensures Incident(edges[..k], x) == EdgeEntries(edges[k - 1], x) + Incident(edges[..k - 1], x)
  {
    assert edges[..k][..k - 1] == edges[..k - 1];
  }

  /** `dijkstra`'s station list after the wiring loop, as lemma AddEdgesNeighbours describes it. */
  lemma WiredGraph(g: Graph, start: StationName)
    requires AddEdges(InitialStates(g, start, |g.nodes|), g.edges, |g.edges|).Success?
    ensures var s := InitialStates(g, start, |g.nodes|);
            var t := AddEdges(s, g.edges, |g.edges|).value;
            |t| == |s| &&
            forall i :: 0 <= i < |s| ==>
              t[i] == s[i].(neighbours := if FirstCopy(s, i) then Incident(g.edges, s[i].name) else [])
  {
    var s := InitialStates(g, start, |g.nodes|);
    AddEdgesNeighbours(s, g.edges, |g.edges|);
    AddEdgesLayout(s, g.edges, |g.edges|);
    assert g.edges[..|g.edges|] == g.edges;
  }

  // ---------------------------------------------------------------------
  // The main loop

  /**
    `after` is `before` relaxed along the neighbour entry `nb` of the current
    station `cur`: same name as the entry, distance `cur`'s plus the weight
    plus the one-minute wait, `previous` and `via_line` pointing back.
  */
  predicate FromEntry(cur: StationState, nb: Neighbour, before: StationState, after: StationState) {
    before.name == nb.station &&
    after == before.(distance := Plus(cur.distance, nb.weight + 1), previous := Some(cur.name), viaLine := Some(nb.line))
  }

  /**
    Lines 68-76 for the first `k` neighbour entries of the current station
    `s[ci]`: the current station itself never changes; every other station
    is either untouched or carries the update of one of those entries (the
    last one that fired); and afterwards every station named by an entry is
    at most the current distance plus that entry's weight plus one.
  */
  lemma {:induction false} RelaxNeighboursEffect(s: seq<StationState>, ci: nat, nbrs: seq<Neighbour>, k: nat)
    requires ci < |s| && k <= |nbrs|
    ensures var t := RelaxNeighbours(s, ci, nbrs, k);
      && t[ci] == s[ci]
      && (forall i :: 0 <= i < |s| ==>
            t[i] == s[i] || exists j :: 0 <= j < k && FromEntry(s[ci], nbrs[j], s[i], t[i]))
      && (forall i, j :: 0 <= i < |s| && 0 <= j < k && s[i].name == nbrs[j].station ==>
            AtMost(t[i].distance, Plus(s[ci].distance, nbrs[j].weight + 1)))
  {
    if k > 0 {
      RelaxNeighboursEffect(s, ci, nbrs, k - 1);
      var u := RelaxNeighbours(s, ci, nbrs, k - 1);
      var nb := nbrs[k - 1];
      var np := Plus(s[ci].distance, nb.weight);
      var t := RelaxNeighbours(s, ci, nbrs, k);
      assert t == RelaxAll(u, nb.station, np, s[ci].name, nb.line);
      assert Plus(np, 1) == Plus(s[ci].distance, nb.weight + 1);
      forall i | 0 <= i < |s|
        ensures t[i] == s[i] || exists j :: 0 <= j < k && FromEntry(s[ci], nbrs[j], s[i], t[i])
      {
        if t[i] != u[i] {
          assert FromEntry(s[ci], nbrs[k - 1], s[i], t[i]);
        }
      }
      forall i, j | 0 <= i < |s| && 0 <= j < k && s[i].name == nbrs[j].station
        ensures AtMost(t[i].distance, Plus(s[ci].distance, nbrs[j].weight + 1))
      {
        assert AtMost(t[i].distance, u[i].distance);
      }
    }
  }

  predicate NoRepeats(q: seq<nat>) {
    forall i, j :: 0 <= i < j < |q| ==> q[i] != q[j]
  }

  /** `queue.remove`: one element fewer, nothing new, and the removed one gone when there were no repeats. */
  lemma RemoveAt(q: seq<nat>, m: nat)
    requires m < |q|
    ensures var rest := q[..m] + q[m + 1..];
      && |rest| == |q| - 1
      && (forall v :: v in rest ==> v in q)
      && (NoRepeats(q) ==> NoRepeats(rest) && q[m] !in rest)
  {
    var rest := q[..m] + q[m + 1..];
    if NoRepeats(q) {
      forall i, j | 0 <= i < j < |rest| ensures rest[i] != rest[j] {
        assert rest[i] == q[if i < m then i else i + 1];
        assert rest[j] == q[if j < m then j else j + 1];
      }
      forall k | 0 <= k < |rest| ensures rest[k] != q[m] {
        assert rest[k] == q[if k < m then k else k + 1];
      }
    }
  }

  /**
    The loop removes one station per round and never one twice, so it runs
    at most as many rounds as the queue holds, and it removes nothing else.
  */
  lemma {:induction false} RunVisited(s: seq<StationState>, q: seq<nat>, finish: StationName)
    requires QueueOk(s, q)
    ensures var r := Run(s, q, finish);
      && |r.visited| <= |q|
      && (r.visited == [] <==> q == [])
      && (forall v :: v in r.visited ==> v in q)
      && QueueOk(s, r.visited)
      && (NoRepeats(q) ==> NoRepeats(r.visited))
    decreases |q|
  {
    if q != [] {
      var m := FirstMinimum(QueueDistances(s, q));
      var ci := q[m];
      var rest := q[..m] + q[m + 1..];
      if !(s[ci].distance == Inf || s[ci].name == finish) {
        var t := RelaxNeighbours(s, ci, s[ci].neighbours, |s[ci].neighbours|);
        RemoveAt(q, m);
        assert QueueOk(t, rest);
        RunVisited(t, rest, finish);
        var r := Run(t, rest, finish);
        assert Run(s, q, finish).visited == [ci] + r.visited;
      }
    }
  }

  /**
    Every station the loop removed and then went past has a finite distance
    and is not `finish`.
  */
  lemma {:induction false} RunPassed(s: seq<StationState>, q: seq<nat>, finish: StationName)
    requires QueueOk(s, q)
    ensures QueueOk(s, Run(s, q, finish).visited)
    ensures var r := Run(s, q, finish);
      forall i :: 0 <= i < |r.visited| - 1 ==>
        r.states[r.visited[i]].name != finish && r.states[r.visited[i]].distance.Fin?
    decreases |q|
  {
    RunVisited(s, q, finish);
    if q != [] {
      var m := FirstMinimum(QueueDistances(s, q));
      var ci := q[m];
      var rest := q[..m] + q[m + 1..];
      if !(s[ci].distance == Inf || s[ci].name == finish) {
        var t := RelaxNeighbours(s, ci, s[ci].neighbours, |s[ci].neighbours|);
        RunGoesOn(s, q, finish);
        RelaxNeighboursLayout(s, ci, s[ci].neighbours, |s[ci].neighbours|);
        RunPassed(t, rest, finish);
        RunLayout(t, rest, finish);
        var r := Run(t, rest, finish);
        var v := Run(s, q, finish).visited;
        assert AtMost(r.states[ci].distance, t[ci].distance) && AtMost(t[ci].distance, s[ci].distance);
        forall i | 0 <= i < |v| - 1
          ensures r.states[v[i]].name != finish && r.states[v[i]].distance.Fin?
        {
          if i > 0 {
            assert v[i] == r.visited[i - 1];
          }
        }
      }
    }
  }

  /** When the loop stops before the queue is empty, the station it stopped at is unreachable or is `finish`. */
  lemma {:induction false} RunStops(s: seq<StationState>, q: seq<nat>, finish: StationName)
    requires QueueOk(s, q)
    ensures QueueOk(s, Run(s, q, finish).visited)
    ensures var r := Run(s, q, finish);
      0 < |r.visited| < |q| ==>
        var last := r.states[r.visited[|r.visited| - 1]];
        last.distance == Inf || last.name == finish
    decreases |q|
  {
    RunVisited(s, q, finish);
    if q != [] {
      var m := FirstMinimum(QueueDistances(s, q));
      var ci := q[m];
      var rest := q[..m] + q[m + 1..];
      if !(s[ci].distance == Inf || s[ci].name == finish) {
        var t := RelaxNeighbours(s, ci, s[ci].neighbours, |s[ci].neighbours|);
        RunGoesOn(s, q, finish);
        RemoveAt(q, m);
        RunStops(t, rest, finish);
        RunVisited(t, rest, finish);
        var r := Run(t, rest, finish);
        var whole := Run(s, q, finish);
        assert whole.states == r.states && whole.visited == [ci] + r.visited;
        if 0 < |r.visited| {
          assert whole.visited[|whole.visited| - 1] == r.visited[|r.visited| - 1];
        }
      }
    }
  }

  /** The whole queue of `dijkstra` holds every station once. */
  lemma AllIndicesNoRepeats(n: nat)
    ensures NoRepeats(AllIndices(n))
  {
  }

  // ---------------------------------------------------------------------
  // The returned route

  /**
    `path`, `times` and `lines` read as a backward chain ending at `finish`:
    equal lengths, each time the distance of its station, each station the
    `previous` of the next, and each line the station's `via_line` or, when
    that is None, the line of the next entry.
  */
  ghost predicate Chain(s: seq<StationState>, finish: StationName, path: seq<StationName>,
                        times: seq<Dist>, lines: seq<Option<LineName>>)
  {
    && |path| == |times| == |lines| > 0
    && path[|path| - 1] == finish
    && (forall i :: 0 <= i < |path| ==> path[i] in Names(s) && times[i] == Lookup(s, path[i]).distance)
    && lines[|lines| - 1] == Lookup(s, finish).viaLine
    && (forall i :: 0 <= i < |path| - 1 ==> Lookup(s, path[i + 1]).previous == Some(path[i]))
    && (forall i :: 0 <= i < |path| - 1 ==>
          lines[i] == (if Lookup(s, path[i]).viaLine.Some? then Lookup(s, path[i]).viaLine else lines[i + 1]))
  }

  /** Every time is finite and below every later one. */
  predicate Increasing(times: seq<Dist>) {
    forall i, j :: 0 <= i < j < |times| ==> times[i].Fin? && times[j].Fin? && times[i].n < times[j].n
  }

  /** The time at `i` is finite and below the one at `i + 1`. */
  predicate Step(times: seq<Dist>, i: nat) {
    i + 1 < |times| && times[i].Fin? && times[i + 1].Fin? && times[i].n < times[i + 1].n
  }

  lemma {:induction false} StepsIncreasing(times: seq<Dist>, i: nat, j: nat)
    requires forall k: nat :: k + 1 < |times| ==> Step(times, k)
    requires i < j < |times|
    ensures times[i].Fin? && times[j].Fin? && times[i].n < times[j].n
    decreases j - i
  {
    assert Step(times, i);
    if i + 1 < j {
      StepsIncreasing(times, i + 1, j);
    }
  }

  lemma PreviousKnown(s: seq<StationState>, p: StationName)
    requires WellLinked(s) && p in Names(s) && Lookup(s, p).previous.Some?
    ensures Known(s, Lookup(s, p).previous.value)
    ensures Lookup(s, Lookup(s, p).previous.value).distance.Fin? && Lookup(s, p).distance.Fin?
    ensures Lookup(s, Lookup(s, p).previous.value).distance.n < Lookup(s, p).distance.n
  {
    var j := FirstIndex(Names(s), p).value;
    assert CloserThan(s, s[j].previous.value, s[j].distance);
  }

  /** One backtracking step keeps the chain: prepend the `previous` of its first station. */
  lemma ChainPrepend(s: seq<StationState>, finish: StationName, path: seq<StationName>,
                     times: seq<Dist>, lines: seq<Option<LineName>>, p: StationName)
    requires Chain(s, finish, path, times, lines)
    requires p in Names(s) && Lookup(s, path[0]).previous == Some(p)
    ensures var st := Lookup(s, p);
            Chain(s, finish, [p] + path, [st.distance] + times,
                  [if st.viaLine.Some? then st.viaLine else lines[0]] + lines)
  {
    var st := Lookup(s, p);
    var line := if st.viaLine.Some? then st.viaLine else lines[0];
    var path', times', lines' := [p] + path, [st.distance] + times, [line] + lines;
    assert path'[|path'| - 1] == path[|path| - 1] && lines'[|lines'| - 1] == lines[|lines| - 1];
    forall i | 0 <= i < |path'|
      ensures path'[i] in Names(s) && times'[i] == Lookup(s, path'[i]).distance
    {
      if i > 0 {
        assert path'[i] == path[i - 1] && times'[i] == times[i - 1];
      }
    }
    forall i | 0 <= i < |path'| - 1
      ensures Lookup(s, path'[i + 1]).previous == Some(path'[i])
      ensures lines'[i] == (if Lookup(s, path'[i]).viaLine.Some? then Lookup(s, path'[i]).viaLine else lines'[i + 1])
    {
      if i > 0 {
        assert path'[i] == path[i - 1] && path'[i + 1] == path[i];
        assert lines'[i] == lines[i - 1] && lines'[i + 1] == lines[i];
      } else {
        assert path'[0] == p && path'[1] == path[0] && lines'[1] == lines[0];
      }
    }
    assert Chain(s, finish, path', times', lines');
  }

  lemma {:induction false} WalkChain(s: seq<StationState>, finish: StationName, cur: Option<StationName>,
                                     path: seq<StationName>, times: seq<Dist>, lines: seq<Option<LineName>>)
    requires WellLinked(s) && Chain(s, finish, path, times, lines)
    requires cur == Lookup(s, path[0]).previous
    requires cur.Some? ==> Known(s, cur.value)
    ensures var (p, t, l) := Walk(s, cur, path, times, lines);
            Chain(s, finish, p, t, l) && Lookup(s, p[0]).previous.None?
    decreases Rank(s, cur)
  {
    if cur.Some? {
      var p := cur.value;
      PreviousKnown(s, path[0]);
      var st := Lookup(s, p);
      var line := if st.viaLine.Some? then st.viaLine else lines[0];
      ChainPrepend(s, finish, path, times, lines, p);
      if st.previous.Some? {
        PreviousKnown(s, p);
      }
      WalkChain(s, finish, st.previous, [p] + path, [st.distance] + times, [line] + lines);
    }
  }

  /**
    The route ends at `finish`, its times are the distances of its stations
    and strictly increase, its last time is the total and the total is the
    distance of the first station named `finish`; the first station of the
    route has no `previous`.
  */
  lemma BacktrackChain(s: seq<StationState>, finish: StationName)
    requires WellLinked(s) && finish in Names(s)
    ensures var r := Backtrack(s, finish);
      && Chain(s, finish, r.path, r.times, r.lines)
      && r.total == Lookup(s, finish).distance == r.times[|r.times| - 1]
      && Lookup(s, r.path[0]).previous.None?
      && Increasing(r.times)
  {
    var f := Lookup(s, finish);
    assert Chain(s, finish, [finish], [f.distance], [f.viaLine]);
    if f.previous.Some? {
      PreviousKnown(s, finish);
    }
    WalkChain(s, finish, f.previous, [finish], [f.distance], [f.viaLine]);
    var r := Backtrack(s, finish);
    forall k: nat | k + 1 < |r.times|
      ensures Step(r.times, k)
    {
      assert r.path[k + 1] in Names(s) && Lookup(s, r.path[k + 1]).previous == Some(r.path[k]);
      PreviousKnown(s, r.path[k + 1]);
    }
    forall i, j | 0 <= i < j < |r.times|
      ensures r.times[i].Fin? && r.times[j].Fin? && r.times[i].n < r.times[j].n
    {
      StepsIncreasing(r.times, i, j);
    }
  }

  /**
    With the loop's invariant: a route of more than one station begins at
    `start` with time 0 and repeats the next entry's line there; a `finish`
    that was never reached gives the one-element route `[finish]`, times
    `[inf]`, lines `[None]` and total inf (time 0 when it is `start`).
  */
  lemma BacktrackEnds(s: seq<StationState>, start: StationName, finish: StationName)
    requires Inv(s, start) && finish in Names(s)
    ensures var r := Backtrack(s, finish);
      && |r.path| == |r.times| == |r.lines| > 0
      && (|r.path| > 1 ==> r.path[0] == start && r.times[0] == Fin(0) && r.lines[0] == r.lines[1])
      && (Lookup(s, finish).previous.None? <==> |r.path| == 1)
      && (Lookup(s, finish).previous.None? && finish != start ==> r == Route([finish], [Inf], [None], Inf))
      && (finish == start ==> r == Route([start], [Fin(0)], [None], Fin(0)))
  {
    BacktrackChain(s, finish);
    var r := Backtrack(s, finish);
    var f := Lookup(s, finish);
    assert Names(s)[FirstIndex(Names(s), finish).value] == finish;
    if |r.path| > 1 {
      var p := r.path[0];
      PreviousKnown(s, r.path[1]);
      var j := FirstIndex(Names(s), p).value;
      assert Names(s)[j] == p;
    }
    if f.previous.None? {
      assert Walk(s, f.previous, [finish], [f.distance], [f.viaLine]) == ([finish], [f.distance], [f.viaLine]);
    }
  }

  /**
    Everything about a route `dijkstra` returns, in terms of the station
    list `s` its main loop leaves behind.
  */
  lemma DijkstraRoute(g: Graph, start: StationName, finish: StationName)
    requires DijkstraResult(g, start, finish).Success?
    ensures Solve(g, start, finish).Success?
    ensures var s := Solve(g, start, finish).value.states;
            var r := DijkstraResult(g, start, finish).value;
      && finish in Names(s)
      && Chain(s, finish, r.path, r.times, r.lines)
      && r.total == Lookup(s, finish).distance == r.times[|r.times| - 1]
      && Lookup(s, r.path[0]).previous.None?
      && Increasing(r.times)
      && (|r.path| > 1 ==> r.path[0] == start && r.times[0] == Fin(0))
      && (Lookup(s, finish).previous.None? && finish != start ==> r == Route([finish], [Inf], [None], Inf))
  {
    SolveKeeps(g, start, finish);
    var s := Solve(g, start, finish).value.states;
    BacktrackChain(s, finish);
    BacktrackEnds(s, start, finish);
  }
}
