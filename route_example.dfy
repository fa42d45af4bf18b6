/**
  The worked example of Algorithms.py's route solver: three edges over five
  node records, traced round by round through `Graph.dijkstra`. The station
  and line names are left open (any three different station names and any
  two line names), so the trace holds for every such naming.
*/
module RouteExample {
  import opened RouteModel
  import opened RouteProperties

  /** The names used in the example: stations `a`, `b`, `c` and lines `l1`, `l2`. */
  datatype Labels = Labels(a: StationName, b: StationName, c: StationName, l1: LineName, l2: LineName)

  predicate Different(x: Labels) {
    x.a != x.b && x.b != x.c && x.a != x.c
  }

  /** `FirstIndex` is determined by its contract: the first position holding the name. */
  lemma FirstIndexAt(names: seq<StationName>, name: StationName, i: nat)
    requires i < |names| && names[i] == name
    requires forall k :: 0 <= k < i ==> names[k] != name
    ensures FirstIndex(names, name) == Some(i)
  {
  }

  /** `FirstMinimum` is determined by its contract: the first position of a minimal distance. */
  lemma FirstMinimumAt(ds: seq<Dist>, m: nat)
    requires m < |ds|
    requires forall k :: 0 <= k < |ds| ==> AtMost(ds[m], ds[k])
    requires forall k :: 0 <= k < m ==> Less(ds[m], ds[k])
    ensures FirstMinimum(ds) == m
  {
    var f := FirstMinimum(ds);
    assert !Less(ds[f], ds[m]);
  }

  /** Edges (l1,a,b,2), (l1,b,c,3), (l2,a,c,10); records (l1,a), (l1,b), (l1,c), (l2,a), (l2,c). */
  function ExampleGraph(x: Labels): Graph {
    NewGraph([(x.l1, x.a, x.b, 2), (x.l1, x.b, x.c, 3), (x.l2, x.a, x.c, 10)],
             [(x.l1, x.a), (x.l1, x.b), (x.l1, x.c), (x.l2, x.a), (x.l2, x.c)])
  }

  /** `station_data` after the first loop: the records in reverse order, both a's at 0. */
  function ExampleInitial(x: Labels): seq<StationState> {
    [StationState(x.c, x.l2, Inf, [], None, None),
     StationState(x.a, x.l2, Fin(0), [], None, None),
     StationState(x.c, x.l1, Inf, [], None, None),
     StationState(x.b, x.l1, Inf, [], None, None),
     StationState(x.a, x.l1, Fin(0), [], None, None)]
  }

  /** After the first edge: the first a and the b hold each other. */
  function ExampleEdge1(x: Labels): seq<StationState> {
    [StationState(x.c, x.l2, Inf, [], None, None),
     StationState(x.a, x.l2, Fin(0), [Neighbour(x.b, 2, x.l1)], None, None),
     StationState(x.c, x.l1, Inf, [], None, None),
     StationState(x.b, x.l1, Inf, [Neighbour(x.a, 2, x.l1)], None, None),
     StationState(x.a, x.l1, Fin(0), [], None, None)]
  }

  /** After the second edge: the b and the first c hold each other. */
  function ExampleEdge2(x: Labels): seq<StationState> {
    [StationState(x.c, x.l2, Inf, [Neighbour(x.b, 3, x.l1)], None, None),
     StationState(x.a, x.l2, Fin(0), [Neighbour(x.b, 2, x.l1)], None, None),
     StationState(x.c, x.l1, Inf, [], None, None),
     StationState(x.b, x.l1, Inf, [Neighbour(x.c, 3, x.l1), Neighbour(x.a, 2, x.l1)], None, None),
     StationState(x.a, x.l1, Fin(0), [], None, None)]
  }

  /** The station list after the wiring loop: every neighbour sits on the first copy of its name. */
  function ExampleWired(x: Labels): seq<StationState> {
    [StationState(x.c, x.l2, Inf, [Neighbour(x.a, 10, x.l2), Neighbour(x.b, 3, x.l1)], None, None),
     StationState(x.a, x.l2, Fin(0), [Neighbour(x.c, 10, x.l2), Neighbour(x.b, 2, x.l1)], None, None),
     StationState(x.c, x.l1, Inf, [], None, None),
     StationState(x.b, x.l1, Inf, [Neighbour(x.c, 3, x.l1), Neighbour(x.a, 2, x.l1)], None, None),
     StationState(x.a, x.l1, Fin(0), [], None, None)]
  }

  /** After the first round, which removes the a of l2: both c's at 11 via l2, b at 3. */
  function ExampleRound1(x: Labels): seq<StationState> {
    [StationState(x.c, x.l2, Fin(11), [Neighbour(x.a, 10, x.l2), Neighbour(x.b, 3, x.l1)], Some(x.a), Some(x.l2)),
     StationState(x.a, x.l2, Fin(0), [Neighbour(x.c, 10, x.l2), Neighbour(x.b, 2, x.l1)], None, None),
     StationState(x.c, x.l1, Fin(11), [], Some(x.a), Some(x.l2)),
     StationState(x.b, x.l1, Fin(3), [Neighbour(x.c, 3, x.l1), Neighbour(x.a, 2, x.l1)], Some(x.a), Some(x.l1)),
     StationState(x.a, x.l1, Fin(0), [], None, None)]
  }

  /** After the third round, which removes b: both c's at 7 via l1. */
  function ExampleRound3(x: Labels): seq<StationState> {
    [StationState(x.c, x.l2, Fin(7), [Neighbour(x.a, 10, x.l2), Neighbour(x.b, 3, x.l1)], Some(x.b), Some(x.l1)),
     StationState(x.a, x.l2, Fin(0), [Neighbour(x.c, 10, x.l2), Neighbour(x.b, 2, x.l1)], None, None),
     StationState(x.c, x.l1, Fin(7), [], Some(x.b), Some(x.l1)),
     StationState(x.b, x.l1, Fin(3), [Neighbour(x.c, 3, x.l1), Neighbour(x.a, 2, x.l1)], Some(x.a), Some(x.l1)),
     StationState(x.a, x.l1, Fin(0), [], None, None)]
  }

  lemma ExampleLookups(x: Labels, s: seq<StationState>)
    requires Different(x) && Names(s) == [x.c, x.a, x.c, x.b, x.a]
    ensures FirstIndex(Names(s), x.a) == Some(1)
    ensures FirstIndex(Names(s), x.b) == Some(3)
    ensures FirstIndex(Names(s), x.c) == Some(0)
  {
    FirstIndexAt(Names(s), x.a, 1);
    FirstIndexAt(Names(s), x.b, 3);
    FirstIndexAt(Names(s), x.c, 0);
  }

  lemma ExampleStart(x: Labels)
    requires Different(x)
    ensures Stations(ExampleGraph(x)) == [x.a, x.b, x.c, x.a, x.c]
    ensures InitialStates(ExampleGraph(x), x.a, 5) == ExampleInitial(x)
  {
    var g := ExampleGraph(x);
    assert g.nodes == [NodeRecord(x.l1, x.a), NodeRecord(x.l1, x.b), NodeRecord(x.l1, x.c),
                       NodeRecord(x.l2, x.a), NodeRecord(x.l2, x.c)];
  }

  /** Two station lists of five are equal when they agree position by position. */
  lemma SameStates(r: seq<StationState>, e: seq<StationState>)
    requires |r| == |e| == 5
    requires r[0] == e[0] && r[1] == e[1] && r[2] == e[2] && r[3] == e[3] && r[4] == e[4]
    ensures r == e
  {
  }

  /** An edge between two different first copies adds one entry to each. */
  lemma EdgeAt(s: seq<StationState>, e: Edge, i: nat, j: nat)
    requires FirstIndex(Names(s), e.start) == Some(i) && FirstIndex(Names(s), e.end) == Some(j) && i != j
    ensures AddEdge(s, e) ==
      Success(s[i := WithNeighbour(s[i], Neighbour(e.end, e.weight, e.line))]
               [j := WithNeighbour(s[j], Neighbour(e.start, e.weight, e.line))])
  {
  }

  lemma ExampleFirstEdge(x: Labels)
    requires Different(x)
    ensures AddEdge(ExampleInitial(x), Edge(x.l1, x.a, x.b, 2)) == Success(ExampleEdge1(x))
  {
    var s := ExampleInitial(x);
    assert Names(s) == [x.c, x.a, x.c, x.b, x.a];
    ExampleLookups(x, s);
    EdgeAt(s, Edge(x.l1, x.a, x.b, 2), 1, 3);
    assert [Neighbour(x.b, 2, x.l1)] + [] == [Neighbour(x.b, 2, x.l1)];
    assert [Neighbour(x.a, 2, x.l1)] + [] == [Neighbour(x.a, 2, x.l1)];
    SameStates(AddEdge(s, Edge(x.l1, x.a, x.b, 2)).value, ExampleEdge1(x));
  }

  lemma ExampleSecondEdge(x: Labels)
    requires Different(x)
    ensures AddEdge(ExampleEdge1(x), Edge(x.l1, x.b, x.c, 3)) == Success(ExampleEdge2(x))
  {
    var s := ExampleEdge1(x);
    assert Names(s) == [x.c, x.a, x.c, x.b, x.a];
    ExampleLookups(x, s);
    EdgeAt(s, Edge(x.l1, x.b, x.c, 3), 3, 0);
    assert [Neighbour(x.c, 3, x.l1)] + [Neighbour(x.a, 2, x.l1)] == [Neighbour(x.c, 3, x.l1), Neighbour(x.a, 2, x.l1)];
    assert [Neighbour(x.b, 3, x.l1)] + [] == [Neighbour(x.b, 3, x.l1)];
    SameStates(AddEdge(s, Edge(x.l1, x.b, x.c, 3)).value, ExampleEdge2(x));
  }

  lemma ExampleThirdEdge(x: Labels)
    requires Different(x)
    ensures AddEdge(ExampleEdge2(x), Edge(x.l2, x.a, x.c, 10)) == Success(ExampleWired(x))
  {
    var s := ExampleEdge2(x);
    assert Names(s) == [x.c, x.a, x.c, x.b, x.a];
    ExampleLookups(x, s);
    EdgeAt(s, Edge(x.l2, x.a, x.c, 10), 1, 0);
    assert [Neighbour(x.c, 10, x.l2)] + [Neighbour(x.b, 2, x.l1)] == [Neighbour(x.c, 10, x.l2), Neighbour(x.b, 2, x.l1)];
    assert [Neighbour(x.a, 10, x.l2)] + [Neighbour(x.b, 3, x.l1)] == [Neighbour(x.a, 10, x.l2), Neighbour(x.b, 3, x.l1)];
    SameStates(AddEdge(s, Edge(x.l2, x.a, x.c, 10)).value, ExampleWired(x));
  }

  lemma ExampleWiring(x: Labels)
    requires Different(x)
    ensures AddEdges(ExampleInitial(x), ExampleGraph(x).edges, 3) == Success(ExampleWired(x))
  {
    var g := ExampleGraph(x);
    var s := ExampleInitial(x);
    assert g.edges == [Edge(x.l1, x.a, x.b, 2), Edge(x.l1, x.b, x.c, 3), Edge(x.l2, x.a, x.c, 10)];
    ExampleFirstEdge(x);
    ExampleSecondEdge(x);
    ExampleThirdEdge(x);
    assert AddEdges(s, g.edges, 1) == Success(ExampleEdge1(x));
    assert AddEdges(s, g.edges, 2) == Success(ExampleEdge2(x));
  }

  lemma ExampleRound1Relax(x: Labels)
    requires Different(x)
    ensures RelaxNeighbours(ExampleWired(x), 1, ExampleWired(x)[1].neighbours, |ExampleWired(x)[1].neighbours|) == ExampleRound1(x)
  {
    var w := ExampleWired(x);
    var t := RelaxAll(w, x.c, Fin(10), x.a, x.l2);
    assert RelaxNeighbours(w, 1, w[1].neighbours, 1) == t;
    assert RelaxAll(t, x.b, Fin(2), x.a, x.l1) == ExampleRound1(x);
  }

  lemma ExampleRound3Relax(x: Labels)
    requires Different(x)
    ensures RelaxNeighbours(ExampleRound1(x), 3, ExampleRound1(x)[3].neighbours, |ExampleRound1(x)[3].neighbours|) == ExampleRound3(x)
  {
    var r := ExampleRound1(x);
    var t := RelaxAll(r, x.c, Fin(6), x.b, x.l1);
    assert RelaxNeighbours(r, 3, r[3].neighbours, 1) == t;
    assert t == ExampleRound3(x);
    assert RelaxAll(t, x.a, Fin(5), x.b, x.l1) == ExampleRound3(x);
  }

  /** `traverse_all` on five stations. */
  lemma ExampleQueue()
    ensures AllIndices(5) == [0, 1, 2, 3, 4]
  {
  }

  /** Round 1 picks station 1, the a of l2, ahead of the a of l1 at the same distance. */
  lemma ExamplePick1(x: Labels)
    ensures FirstMinimum(QueueDistances(ExampleWired(x), [0, 1, 2, 3, 4])) == 1
  {
    assert QueueDistances(ExampleWired(x), [0, 1, 2, 3, 4]) == [Inf, Fin(0), Inf, Inf, Fin(0)];
    FirstMinimumAt([Inf, Fin(0), Inf, Inf, Fin(0)], 1);
  }

  /** Round 2 picks station 4, the other a. */
  lemma ExamplePick2(x: Labels)
    ensures FirstMinimum(QueueDistances(ExampleRound1(x), [0, 2, 3, 4])) == 3
  {
    assert QueueDistances(ExampleRound1(x), [0, 2, 3, 4]) == [Fin(11), Fin(11), Fin(3), Fin(0)];
    FirstMinimumAt([Fin(11), Fin(11), Fin(3), Fin(0)], 3);
  }

  /** Round 3 picks station 3, b. */
  lemma ExamplePick3(x: Labels)
    ensures FirstMinimum(QueueDistances(ExampleRound1(x), [0, 2, 3])) == 2
  {
    assert QueueDistances(ExampleRound1(x), [0, 2, 3]) == [Fin(11), Fin(11), Fin(3)];
    FirstMinimumAt([Fin(11), Fin(11), Fin(3)], 2);
  }

  /** Round 4 takes the first c, the finish, and stops. */
  lemma ExampleRound4(x: Labels)
    requires Different(x)
    ensures Run(ExampleRound3(x), [0, 2], x.c) == Search(ExampleRound3(x), [0])
  {
    assert QueueDistances(ExampleRound3(x), [0, 2]) == [Fin(7), Fin(7)];
  }

  /** Round 3 removes station 3, b, and relaxes the c's. */
  lemma ExampleRunRound3(x: Labels)
    requires Different(x)
    ensures QueueOk(ExampleRound3(x), [0, 2])
    ensures var tail := Run(ExampleRound3(x), [0, 2], x.c);
            Run(ExampleRound1(x), [0, 2, 3], x.c) == Search(tail.states, [3] + tail.visited)
  {
    var q := [0, 2, 3];
    assert q[..2] + q[3..] == [0, 2];
    ExamplePick3(x);
    ExampleRound3Relax(x);
    RunGoesOn(ExampleRound1(x), q, x.c);
  }

  /** Round 2 removes station 4, the a of l1, which has no neighbours. */
  lemma ExampleRunRound2(x: Labels)
    requires Different(x)
    ensures QueueOk(ExampleRound1(x), [0, 2, 3])
    ensures var tail := Run(ExampleRound1(x), [0, 2, 3], x.c);
            Run(ExampleRound1(x), [0, 2, 3, 4], x.c) == Search(tail.states, [4] + tail.visited)
  {
    var r1 := ExampleRound1(x);
    var q := [0, 2, 3, 4];
    assert q[..3] + q[4..] == [0, 2, 3];
    ExamplePick2(x);
    assert RelaxNeighbours(r1, 4, r1[4].neighbours, |r1[4].neighbours|) == r1;
    RunGoesOn(r1, q, x.c);
  }

  /** Round 1 removes station 1, the a of l2, and relaxes its neighbours. */
  lemma ExampleRunRound1(x: Labels)
    requires Different(x)
    ensures QueueOk(ExampleRound1(x), [0, 2, 3, 4])
    ensures var tail := Run(ExampleRound1(x), [0, 2, 3, 4], x.c);
            Run(ExampleWired(x), AllIndices(5), x.c) == Search(tail.states, [1] + tail.visited)
  {
    var q := AllIndices(5);
    ExampleQueue();
    assert q[..1] + q[2..] == [0, 2, 3, 4];
    ExamplePick1(x);
    ExampleRound1Relax(x);
    RunGoesOn(ExampleWired(x), q, x.c);
  }

  /** Rounds 3 and 4. */
  lemma ExampleRunFrom3(x: Labels)
    requires Different(x)
    ensures Run(ExampleRound1(x), [0, 2, 3], x.c) == Search(ExampleRound3(x), [3, 0])
  {
    ExampleRunRound3(x);
    ExampleRound4(x);
    assert [3] + [0] == [3, 0];
  }

  /** Rounds 2 to 4. */
  lemma ExampleRunFrom2(x: Labels)
    requires Different(x)
    ensures Run(ExampleRound1(x), [0, 2, 3, 4], x.c) == Search(ExampleRound3(x), [4, 3, 0])
  {
    ExampleRunRound2(x);
    ExampleRunFrom3(x);
    assert [4] + [3, 0] == [4, 3, 0];
  }

  /** The whole main loop: it removes stations 1, 4, 3 and 0 and stops at the first c. */
  lemma ExampleRun(x: Labels)
    requires Different(x)
    ensures Run(ExampleWired(x), AllIndices(5), x.c) == Search(ExampleRound3(x), [1, 4, 3, 0])
  {
    ExampleRunRound1(x);
    ExampleRunFrom2(x);
    assert [1] + [4, 3, 0] == [1, 4, 3, 0];
  }

  lemma ExampleWellLinked(x: Labels)
    requires Different(x)
    ensures WellLinked(ExampleRound3(x))
  {
    var s := ExampleRound3(x);
    assert Names(s) == [x.c, x.a, x.c, x.b, x.a];
    ExampleLookups(x, s);
    assert CloserThan(s, x.b, Fin(7)) && CloserThan(s, x.a, Fin(3));
    forall i | 0 <= i < |s| && s[i].previous.Some?
      ensures CloserThan(s, s[i].previous.value, s[i].distance)
    {
      assert i == 0 || i == 2 || i == 3;
    }
  }

  lemma ExampleBacktrack(x: Labels)
    requires Different(x)
    ensures WellLinked(ExampleRound3(x)) && x.c in Names(ExampleRound3(x))
    ensures Backtrack(ExampleRound3(x), x.c) ==
      Route([x.a, x.b, x.c], [Fin(0), Fin(3), Fin(7)], [Some(x.l1), Some(x.l1), Some(x.l1)], Fin(7))
  {
    var s := ExampleRound3(x);
    assert Names(s) == [x.c, x.a, x.c, x.b, x.a];
    ExampleLookups(x, s);
    ExampleWellLinked(x);
    var l1: Option<LineName> := Some(x.l1);
    assert Lookup(s, x.a) == s[1] && Lookup(s, x.b) == s[3] && Lookup(s, x.c) == s[0];
    assert Walk(s, None, [x.a, x.b, x.c], [Fin(0), Fin(3), Fin(7)], [l1, l1, l1]) ==
      ([x.a, x.b, x.c], [Fin(0), Fin(3), Fin(7)], [l1, l1, l1]);
    assert [x.a] + [x.b, x.c] == [x.a, x.b, x.c];
    assert [Fin(0)] + [Fin(3), Fin(7)] == [Fin(0), Fin(3), Fin(7)] && [l1] + [l1, l1] == [l1, l1, l1];
    assert Walk(s, Some(x.a), [x.b, x.c], [Fin(3), Fin(7)], [l1, l1]) ==
      ([x.a, x.b, x.c], [Fin(0), Fin(3), Fin(7)], [l1, l1, l1]);
    assert [x.b] + [x.c] == [x.b, x.c];
    assert [Fin(3)] + [Fin(7)] == [Fin(3), Fin(7)] && [l1] + [l1] == [l1, l1];
    assert Walk(s, Some(x.b), [x.c], [Fin(7)], [l1]) ==
      ([x.a, x.b, x.c], [Fin(0), Fin(3), Fin(7)], [l1, l1, l1]);
  }

  /**
    From a to c the route is a, b, c with times 0, 3, 7, all on l1, total 7;
    the direct l2 edge would have given 11.
  */
  lemma WorkedExample(x: Labels)
    requires Different(x)
    ensures DijkstraResult(ExampleGraph(x), x.a, x.c) ==
      Success(Route([x.a, x.b, x.c], [Fin(0), Fin(3), Fin(7)], [Some(x.l1), Some(x.l1), Some(x.l1)], Fin(7)))
  {
    var g := ExampleGraph(x);
    ExampleStart(x);
    ExampleWiring(x);
    ExampleRun(x);
    ExampleBacktrack(x);
    assert |g.nodes| == 5 && |g.edges| == 3;
    assert Solve(g, x.a, x.c) == Success(Search(ExampleRound3(x), [1, 4, 3, 0]));
  }
}
