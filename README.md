# London route planner: route solver and doubly linked list

This project models the two algorithmic parts of a small London Underground
journey planner and proves properties of the model.

- **Route solver (`Algorithms.py`).** `Graph.__init__` turns the raw edge
  records `(line, start, end, weight)` and node records `(line, station)`
  into named records. `Graph.dijkstra(start, finish)` then works in four
  phases:
  1. It checks both stops with `assert`.
  2. It builds one `Station` object per node record, pushing each onto the
     front of `station_data`.
  3. It wires every edge in both directions. Each neighbour entry goes to the
     *first* station of that name.
  4. It runs a Dijkstra loop that repeatedly removes the first station of
     least distance from a queue and relaxes its neighbours. A hop costs
     `weight + 1`, and every station carrying the neighbour's name is
     updated. The loop stops at an unreachable station or at `finish`.

  Finally it walks the `previous` links back from `finish` and returns four
  things: the route, the cumulative times, the lines and the total.
- **Doubly linked list (`DoublyLinkedList.py`).** This is a pointer structure
  made of `head`, nodes with `prev_node`/`next_node`, and a `size` counter
  that the operations update by hand (and sometimes forget to).

## How the model is organised

- `route_model.dfy`, module `RouteModel`, is the value-level description of
  `dijkstra`.
  - The records are `Edge`, `NodeRecord` and `Graph`.
  - Each `Station`'s fields form a `StationState`. Travel times are
    `Dist = Fin(n) | Inf`, which is Python's `float("inf")` arithmetic on
    whole numbers.
  - The phases are functions, each mirroring its lines of code:
    - `InitialStates`;
    - `AddEdge`/`AddEdges`, where a missing name is a `NoneDereference`
      failure;
    - `Relaxed`/`RelaxAll`/`RelaxNeighbours`;
    - `FirstMinimum`, for `min`;
    - `Run`, for the `while queue` loop;
    - `Walk`/`Backtrack`;
    - `Solve`/`DijkstraResult`, the whole method.
  - It also holds the invariant the loop keeps (`Inv`):
    - copies of a name agree;
    - every `previous` is strictly closer;
    - `previous` and `via_line` are set together.
- `algorithms.dfy`, module `Algorithms`, is the imperative model. `Station`
  is a class with the original's fields, so `add_neighbour` and the
  relaxation overwrite them in place. `Dijkstra` runs the original's loops
  over a sequence of `Station` objects:
  - the initialisation `for`;
  - the edge `for` with its two first-match searches;
  - `while queue` with `min` and `remove`;
  - the nested relaxation `for`s;
  - the backtracking `while True`.

  Each loop is proved to produce exactly what the matching `RouteModel`
  function describes. `Dijkstra` is proved to return `DijkstraResult`.
- `route_properties.dfy`, module `RouteProperties`, holds the properties of
  `DijkstraResult`:
  - when it fails and with what;
  - where the neighbour entries end up;
  - how many stations the loop removes and why it stops;
  - that no distance increases;
  - that the returned route is a chain of `previous` links with equal-length
    outputs and strictly increasing times;
  - what an unreachable finish yields.
- `route_example.dfy`, module `RouteExample`, traces the worked example
  round by round. The graph has edges (L1,A,B,2), (L1,B,C,3) and (L2,A,C,10).
  The result is route A,B,C with times 0,3,7, all on L1, total 7. The trace
  is proved for any three different station names and any two line names.
- `doubly_linked_list.dfy`, module `LinkedList`, is the list as a class.
  - `Node` and `DoublyLinkedList` have the original's fields. Ghost
    `Contents`/`Nodes`/`Repr` give the abstract view and the footprint.
  - `Valid()` states that `prev_node` mirrors `next_node`.
  - Each operation's contract gives the new contents, the new `size` and
    the exception outcome for every case, including the defects below.

Exceptions become values:
- `Failure(AssertionFailed)` is a failed `assert`.
- `Failure(NoneDereference)` and `Raised(NoneDereference)` are an attribute
  read on `None`.
- `Raised(ListEmpty)` and `Raised(NotFound(x))` are the list's `ValueError`s.

In each case the list model ends in the state the original leaves behind.

Behaviour of the route solver worth noting, which the model follows:
- **Stations per name.** There is one station per node record, not one per
  name. A start that lies on two lines therefore begins with two stations at
  distance 0.
- **Bad stops.** An unknown stop is a failed `assert`, not a dedicated
  unknown-stop error.
- **Unknown edge endpoints.** They fail by dereferencing `None`.
- **Unreachable finish.** It returns the one-element route
  `([finish], [inf], [None], inf)` rather than a no-path error.
- **Weights.** They are not checked for positivity.
- **Relaxation without gain.** Because the test is `next_path < distance`
  but the new value is `next_path + 1`, an entry whose `next_path` is one
  below a station's distance leaves the distance as it is but still rewrites
  `previous` and `via_line` (`RelaxNeighboursEffect` allows exactly this).

Behaviour of the list that the contracts spell out:
- `add_last` leaves `size` unchanged when it appends to a non-empty list.
- `add_last` also decides emptiness by the counter. A counter that has
  drifted to 0 puts the element in front, and a non-zero counter on an
  empty list fails walking from `None`.
- `remove_mid` never changes `size`, and it does nothing when the only node
  holds the element.
- `remove_first` on one element clears `head` and then fails on `None`,
  with `size` unchanged.
- `insert_mid` on an empty list fails on `None`.
- `get_head` on an empty list fails on `None`.

## Model

| member | source | states |
|---|---|---|
| `RouteModel.NewGraph` | Algorithms.py:30-35 | every raw edge and node tuple becomes the record with the same fields, in the same order, and there are as many records as tuples |
| `RouteModel.FirstIndex` | Algorithms.py:52 | the `next(...)` search: the first position holding the name, and no earlier position holds it; `None` exactly when the name is absent |
| `RouteModel.InitialStates` | Algorithms.py:44-49 | after `k` records were pushed with `add_first`, position `i` holds the fresh station of record `k-1-i` (reverse record order) |
| `RouteProperties.InitialStations` | Algorithms.py:44-49 | after initialisation every station named `start` is at 0 and every other at inf, with no neighbours, previous or line; names and lines follow the records in reverse |
| `RouteProperties.InitialNamesIff` | Algorithms.py:45-49 | a name occurs in `station_data` exactly when it is a node record's station |
| `RouteModel.InitialInv` | Algorithms.py:44-49 | the initial station list satisfies the loop invariant |
| `Algorithms.Station.constructor` | Algorithms.py:10-16 | a new station has the given name and line, distance inf, no neighbours, no previous and no via_line |
| `Algorithms.Station.AddNeighbour` | Algorithms.py:18-19 | the entry goes to the front of the neighbour list; every other field is unchanged |
| `Algorithms.BuildStations` | Algorithms.py:44-49 | the loop creates fresh, pairwise different `Station` objects whose fields are exactly `InitialStates` |
| `Algorithms.FirstStation` | Algorithms.py:52 | the search loop over the station objects returns `FirstIndex` of their names |
| `Algorithms.WireEdge` | Algorithms.py:52-55 | one edge wired in place: success leaves the objects equal to `AddEdge`, and a missing endpoint is exactly `AddEdge`'s `None` failure |
| `Algorithms.WireNeighbours` | Algorithms.py:51-55 | the edge loop leaves the objects equal to `AddEdges` over all edges, or stops at the first failing edge with `AddEdges` failing too |
| `RouteModel.AddEdgesFailureSticks` | Algorithms.py:51-55 | once one edge has failed on `None`, the whole wiring fails |
| `RouteModel.AddEdgesLayout` | Algorithms.py:51-55 | wiring changes only neighbour lists: names, lines, distances, previous and via_line stay as they were |
| `RouteProperties.AddEdgeSucceeds` | Algorithms.py:52-55 | one edge wires up exactly when both endpoints are station names, and any failure is a `None` dereference |
| `RouteProperties.AddEdgesNames` | Algorithms.py:51-55 | wiring keeps the list of station names |
| `RouteProperties.AddEdgesSucceeds` | Algorithms.py:51-55 | the first `k` edges wire up if and only if all their endpoints are station names; otherwise the failure is a `None` dereference |
| `RouteProperties.AddEdgeNeighbours` | Algorithms.py:52-55 | one edge `(line, a, b, w)` puts `(b, w, line)` in front of the first station named `a`'s neighbours and then `(a, w, line)` in front of the first station named `b`'s, and changes nothing else |
| `RouteProperties.AddEdgesNeighbours` | Algorithms.py:51-55 | after `k` edges the first copy of each name holds the entries of the edges touching it, newest first, and every other copy holds none |
| `RouteProperties.WiredGraph` | Algorithms.py:44-55 | after wiring, each station is its initial state with those neighbour lists |
| `RouteProperties.DijkstraOutcome` | Algorithms.py:41-55 | the result is an assertion failure exactly when a stop is unknown, a `None` failure exactly when the stops are known but some edge endpoint is not, and a route otherwise |
| `RouteModel.FirstMinimum` | Algorithms.py:62 | `min(queue, key=distance)`: a position whose distance is at most every other, and strictly below every earlier one (ties go to the earliest) |
| `Algorithms.DistancesOf` | Algorithms.py:62 | the distances of the queue's stations, position by position |
| `Algorithms.FirstMin` | Algorithms.py:62 | the scan returns a least-distance position that beats every earlier position, which is `FirstMinimum` |
| `RouteProperties.RelaxNeighboursEffect` | Algorithms.py:68-76 | relaxing along the current station's neighbour entries never changes the current station; every other station either keeps its state or carries one entry's update (distance = current distance + weight + 1, `previous` = the current station, `via_line` = the entry's line, name matching the entry); afterwards every station an entry names is at most current distance + weight + 1 |
| `Algorithms.RelaxStations` | Algorithms.py:71-76 | the inner loop over the station objects leaves them equal to `RelaxAll` |
| `Algorithms.RelaxNeighbourhood` | Algorithms.py:68-76 | the loop over the current station's neighbours leaves the objects equal to `RelaxNeighbours`, with `next_path` read afresh for each entry |
| `RouteModel.RelaxAllLayout` | Algorithms.py:71-76 | a relaxation pass keeps names, lines and neighbour lists, and never raises a distance |
| `RouteModel.RelaxNeighboursLayout` | Algorithms.py:68-76 | relaxing all neighbours of one station keeps the layout and never raises a distance |
| `RouteModel.RelaxAllKeeps` | Algorithms.py:71-76 | a relaxation from a settled station keeps the invariant (copies agree, `previous` strictly closer, `previous` and `via_line` set together) |
| `RouteModel.RelaxNeighboursKeeps` | Algorithms.py:68-76 | relaxing all neighbours of one station keeps the invariant |
| `RouteModel.RunLayout` | Algorithms.py:60-76 | the whole loop keeps names, lines and neighbour lists and never raises a distance |
| `RouteModel.RunKeeps` | Algorithms.py:60-76 | the whole loop keeps the invariant |
| `Algorithms.RunQueue` | Algorithms.py:57-76 | the `while queue` loop with `min`, `remove`, the break test and the relaxation leaves the objects equal to `Run` over the full queue |
| `RouteProperties.RunVisited` | Algorithms.py:60-63 | each round removes one queue entry, so at most `len(queue)` rounds run, only queued stations are removed, none twice, and an empty queue means no round |
| `RouteProperties.RunPassed` | Algorithms.py:60-66 | every removed station before the last one was reached (finite distance) and is not `finish` |
| `RouteProperties.RunStops` | Algorithms.py:60-66 | a loop that ends with the queue non-empty ended on an unreachable station or on `finish` |
| `RouteModel.SolveKeeps` | Algorithms.py:41-76 | after the loop the invariant holds and `finish` is among the station names |
| `Algorithms.BacktrackStations` | Algorithms.py:84-104 | the backtracking loop over the objects returns exactly `Backtrack` |
| `RouteProperties.PreviousKnown` | Algorithms.py:97-104 | every `previous` followed during backtracking names a reached station strictly closer than the current one |
| `RouteProperties.WalkChain` | Algorithms.py:94-104 | the walk keeps a chain of `previous` links ending at `finish` and ends at a station with no `previous` |
| `RouteProperties.BacktrackChain` | Algorithms.py:84-106 | route, times and lines have equal length and end at `finish`; each entry is the `previous` of the next; times are the stations' distances and strictly increase; the total is the first `finish` station's distance and the last time; the first entry has no `previous` |
| `RouteProperties.BacktrackEnds` | Algorithms.py:84-106 | a longer route starts at `start` at time 0 and copies the next entry's line; it has one entry exactly when `finish` has no `previous`; a finish other than `start` without `previous` gives `([finish], [inf], [None], inf)` and `finish == start` gives `([start], [0], [None], 0)` |
| `RouteProperties.DijkstraRoute` | Algorithms.py:39-106 | every route `dijkstra` returns has the chain, time, total, start and unreachable-finish properties above |
| `Algorithms.Dijkstra` | Algorithms.py:39-106 | the imperative method returns exactly `DijkstraResult`, assertion failures and `None` failures included |
| `RouteExample.WorkedExample` | Algorithms.py:44-106 | edges (L1,a,b,2), (L1,b,c,3), (L2,a,c,10) over records (L1,a), (L1,b), (L1,c), (L2,a), (L2,c) give route a,b,c, times 0,3,7, lines L1,L1,L1 and total 7 |
| `LinkedList.IndexOf` | DoublyLinkedList.py:105-107 | the search position: the first node holding the element |
| `LinkedList.InsertAfter` | DoublyLinkedList.py:100-122 | the element placed right after the first occurrence of the anchor, the rest unchanged and in order |
| `LinkedList.RemoveFirstOf` | DoublyLinkedList.py:125-148 | the list without the first occurrence of the element, the rest unchanged and in order |
| `LinkedList.InsertAfterElements` | DoublyLinkedList.py:100-122 | inserting adds one element, exactly one copy of it, right behind the anchor |
| `LinkedList.RemoveFirstOfElements` | DoublyLinkedList.py:125-148 | removing takes away exactly one copy of the element |
| `LinkedList.RemoveInserted` | DoublyLinkedList.py:100-148 | removing an element that `insert_mid` just added (and that was not there before) gives the former list back |
| `LinkedList.Node.constructor` | DoublyLinkedList.py:17-20 | a node holds its element and the two given pointers |
| `LinkedList.DoublyLinkedList.constructor` | DoublyLinkedList.py:24-26 | a new list is well formed, empty and has `size` 0 |
| `LinkedList.DoublyLinkedList.Len` | DoublyLinkedList.py:30-31 | `__len__` returns the counter, which equals the number of elements only while the counter is accurate |
| `LinkedList.DoublyLinkedList.GetHead` | DoublyLinkedList.py:33-34 | the first element, or a `None` failure on an empty list |
| `LinkedList.DoublyLinkedList.IsEmpty` | DoublyLinkedList.py:37-38 | true exactly when the counter is 0, which means no elements only while the counter is accurate |
| `LinkedList.DoublyLinkedList.AddFirst` | DoublyLinkedList.py:41-52 | the element goes in front, the rest unchanged and in order, and `size` goes up by one |
| `LinkedList.DoublyLinkedList.RemoveFirst` | DoublyLinkedList.py:55-64 | empty: `ValueError`; one element: `head` cleared, then a `None` failure with `size` unchanged; otherwise the first element is dropped and `size` goes down by one |
| `LinkedList.DoublyLinkedList.AddLast` | DoublyLinkedList.py:67-77 | counter 0: acts as `add_first`; otherwise the element goes at the end with `size` unchanged (or a `None` failure when the counter is non-zero on an empty list) |
| `LinkedList.DoublyLinkedList.RemoveLast` | DoublyLinkedList.py:80-97 | empty: `ValueError`; otherwise exactly the last element is dropped, the rest kept in order, and `size` goes down by one |
| `LinkedList.DoublyLinkedList.InsertMid` | DoublyLinkedList.py:100-122 | empty: `None` failure; anchor absent: `ValueError` and nothing changes; otherwise `InsertAfter` and `size` up by one |
| `LinkedList.DoublyLinkedList.RemoveMid` | DoublyLinkedList.py:125-148 | `size` never changes; an empty list, or a single node holding the element: nothing happens; a non-empty list without the element: `ValueError`; otherwise `RemoveFirstOf` |
| `LinkedList.DoublyLinkedList.TraverseAll` | DoublyLinkedList.py:151-157 | the elements from head to tail; the list is not changed |
| `LinkedList.DoublyLinkedList.LinkBetween` | DoublyLinkedList.py:108-115 | the new node is linked between two neighbours, with `prev_node` mirroring `next_node` afterwards |
| `LinkedList.DoublyLinkedList.LinkAfterTail` | DoublyLinkedList.py:117-119 | the new node is linked behind the tail, with the mirror kept |
| `LinkedList.DoublyLinkedList.UnlinkBetween` | DoublyLinkedList.py:136-138 | an inner node is unlinked, with the mirror kept |
| `LinkedList.DoublyLinkedList.UnlinkHead` | DoublyLinkedList.py:140-143 | the head node is unlinked and its successor becomes the head |
| `LinkedList.DoublyLinkedList.UnlinkTail` | DoublyLinkedList.py:145-146 | the tail node is unlinked |

## Left out

- `Main.py` is not part of this model. It is a tkinter interface, spreadsheet
  loading with pandas, a matplotlib plot and timing prints. Its small
  computations (Bakerloo weight halving, the hour window, the delta between
  stops, the journey summary) are display and input glue.
- **Floating point.** Weights are natural numbers and distances are whole
  numbers or `Inf`. The no-increase property (`RelaxAllLayout`, `RunLayout`)
  relies on this. With fractional weights, such as the halved Bakerloo ones,
  `next_path < distance` no longer implies `next_path + 1 <= distance`.
  The natural-number type also rules out negative weights. With those the
  `previous` links can form a cycle, and the backtracking `while True`
  (Algorithms.py:94) would never end.
- `RouteProperties.DijkstraRoute`: the route is not proved to be a
  *shortest* route. Only its structure, its times and its stopping
  behaviour are proved. Optimality would need a full Dijkstra correctness
  proof (every settled station final, over several copies per name, with
  the extra minute per hop), which this model does not attempt.
- **Containers inside `dijkstra`.** The `DDList`s that `dijkstra` builds
  (`station_data`, `neighbours`, `shortest_path`, `stepped_dist`,
  `stepped_line`) and its `queue` are sequences in the model. The list class
  itself is modelled separately. `queue.remove` removes by identity, and the
  model removes the chosen position; these agree because the station objects
  are pairwise different, which `BuildStations` proves.
- `Algorithms.Station.ReturnNeighbours`: the getter is a plain function of
  the field, without a contract of its own.
- **Python types.** Records are typed; the `namedtuple` record types, and the
  dynamic typing that would let a malformed record through, are not
  modelled.
- **Alias rebinding.** The loop variable `start` in the edge loop rebinds
  the parameter. The original never reads `start` again afterwards, so the
  model uses a separate name.
