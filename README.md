# take-me-there, modelled in Dafny

take-me-there reads NeTEx timetable files and builds a time-expanded graph for one day. Shortest paths in that graph are earliest arrivals. This project models the code that does the work and proves what that code guarantees. The model covers:

- **The calendar** (`timetable.dfy`). `OperatingPeriod::is_valid` is a date-range test followed by a lookup of the day offset in the period's bit set. `Journey::is_valid` tests the journey's validity window, then takes the OR of its day types, returning early on the first one that runs. `StopPlaceType` is read with `from_str` and written with `Display`. The same two `is_valid` methods appear in `src/structure.rs` and again in `src/parser.rs`; they are modelled once.
- **The NeTEx reader's resolution stage** (`netex.dfy`). `path_vec_eq` is modelled, and so is the decoding of a `ValidDayBits` text. The post-pass takes the string-keyed records that the XML event loop collects and numbers operating periods, day types, stops and journey patterns. It then rewrites every journey so that it refers to them by index. Journey patterns are walked in ascending `order` key, as their `BTreeMap` is.
- **The station registry** (`registry.dfy`). `MultiConnection::from` merges the stop lists of several files into one list without duplicates, in first-seen order. It renumbers every passing through the file's local-to-global map.
- **The time-expanded graph** (`graph.dfy`). `ConnectionGraph` is a class with the fields of the source: the edge map, both id maps and the counter.
  - `get_or_insert` numbers vertices. A new time vertex also brings in its station's `Initial` and `Final` vertices and the two zero-weight fan edges.
  - `new` adds a travel edge for each pair of consecutive passings of every journey that runs on 2024-11-04, unless the "don't go back in time" guard skips the pair.
  - `build_waiting_edges` sorts each station's time vertices by time and chains them with wait edges.

The class invariant (`Valid`) states three things:

- the two id maps are inverse and use exactly the ids `0..count-1`;
- every edge carries the weight its kind demands: zero for a fan edge, the positive time gap for an edge between two time vertices;
- every time vertex has its fan edges.

The constructor is proved to yield exactly these vertices: the ends of the travel edges and their stations' anchors. It yields these edges:

- every travel edge;
- every wait edge;
- no other edge between two time vertices.

All weights are non-negative, which is what Dijkstra's algorithm in `src/main.rs` needs.

Modelling choices:

- `NaiveDateTime` is whole seconds on one time line. The query date 2024-11-04 is `1730678400`. `NaiveTime` is seconds since midnight. `num_days` is division by 86400; the duration is non-negative wherever it is taken.
- `BitSet` is `set<nat>`. `GraphMap<usize, i64>` is `map<(nat, nat), int>`, where a later `add_edge` overwrites the weight. `HashMap`s are `map`s. `Option` is ordered with `None` first, as Rust's derived ordering does.
- The iteration order of a `HashMap` is unspecified. The model takes the next key with `:|`, so the contracts state only that the indices are consistent, never which index a name gets.
- A panic in the source (`unwrap` of `None`, an index out of range, `len() - 1` on an empty vector) becomes a precondition: `Traversable`, `Buildable`, `Resolvable`, `StopsIndexed`.

How the code builds the graph, as the model states it:

- Ids are assigned lazily, in journey order: the time vertex first, then its station's `Initial` and then its `Final`, each only if it is new (`GetOrInsert`).
- `Initial` and `Final` exist only for stations with at least one time vertex (the `GraphVertex` clause of the constructor).
- A pair of consecutive passings is skipped only when `arrival <= departure` under `Option` ordering. So a missing arrival skips the pair, and a missing departure followed by a present arrival panics on `unwrap` (`Advances`, `Traversable`).
- `ConnectionGraph` has no vertex-to-station lookup beyond the `idx2vert` map.
- A day type declared twice is indexed at its last declaration, because the index map is overwritten; journeys refer to that position (`LastDeclared`).

## Model

| member | source | states |
|---|---|---|
| Timetable.StopPlaceTypeFromStr | src/structure.rs:16-25 | `"railStation"` and `"other"` give their kinds, and every other text gives `Unknown` (each both ways) |
| Timetable.StopPlaceTypeToString | src/structure.rs:28-36 | each kind is written as `RailStation`, `Other` or `Unknown` |
| Timetable.DisplayedKindsReadBackAsUnknown | src/structure.rs:16-36 | the written names tell the kinds apart, but reading a written name back always gives `Unknown` |
| Timetable.DaysSince | src/structure.rs:51-52 | the whole-day offset of a date from the period start: the date falls inside that day |
| Timetable.OnDayUnique | src/structure.rs:51-52 | a date falls inside exactly one whole day after the start, the one `num_days` gives |
| Timetable.PeriodIsValid | src/structure.rs:47-53 | true iff the date is inside the range and the bit of the day it falls on is set |
| Timetable.BitsBeyondRangeIgnored | src/structure.rs:47-53 | bits past the last day of the range never change the answer |
| Timetable.PeriodExample | src/structure.rs:47-53 | a 2024-01-01..2024-01-03 period with bits {0, 2} runs on the 1st and 3rd, not on the 2nd or the 4th |
| Timetable.JourneyIsValid | src/structure.rs:67-79 | the early-exit loop returns exactly `RunsOn`: inside the validity window, and some listed day type has a period valid on the date |
| Timetable.SomeDayRunsSplit | src/structure.rs:71-78 | the day types combine by OR: split anywhere, the list runs iff one of the parts does |
| Timetable.NoPeriodNeverRuns | src/structure.rs:71-78 | a journey whose day types have no period, or that has none, never runs |
| Registry.RegisterExtendsDedup | src/structure.rs:135-140 | registering further names keeps the list so far as a prefix and gives the first occurrences of all names seen |
| Registry.DedupSnoc | src/structure.rs:136-140 | a name is appended iff it has not been listed yet |
| Registry.DedupKeepsNamesOnce | src/structure.rs:132-140 | the merged list has no duplicates and holds exactly the input names |
| Registry.DedupFirstSeenOrder | src/structure.rs:132-140 | names are listed in the order in which they are first seen |
| Registry.RemapPassings | src/structure.rs:147-151 | one renumbered passing per input passing |
| Registry.RemapPassingsRenumbers | src/structure.rs:147-151 | every renumbered passing names the same stop and keeps its arrival and departure |
| Registry.ConnectionRenumberedGrows | src/structure.rs:132-161 | a file's renumbering stays correct when later files append names |
| Registry.RegisterStops | src/structure.rs:133-143 | the stop loop appends the new names, keeps the name index exact and maps each local index to the global index of the same name |
| Registry.RenumberJourneys | src/structure.rs:144-156 | the journeys keep count, order, windows and day types, and each passing names the same stop |
| Registry.MergeFile | src/structure.rs:132-161 | one turn of the file loop: the registry becomes the first occurrences of the stops of the files up to this one, this file gets its sub-connection, and the files before it stay correctly renumbered |
| Registry.Merge | src/structure.rs:126-167 | the stops are the first occurrences of all file stops; one sub-connection per file, in order, with its calendar unchanged and its passings renumbered |
| Registry.MergeKeepsNames | src/structure.rs:135-143 | every stop of every file is in the merged list |
| Registry.AllStopsHasFile | src/structure.rs:132-135 | every stop of a file is among all the stops read |
| Netex.PathEq | src/parser.rs:370-375 | true iff the two paths are equal |
| Netex.DecodeDayBits | src/parser.rs:260-267 | bit `i` is set iff `i` is within the text and its `i`-th character is `1` |
| Netex.DayBitsRoundTrip | src/parser.rs:260-267 | decoding the text of `n` days for a set gives back the set's offsets below `n` |
| Netex.PassingTimes | src/parser.rs:342-345 | the map has an entry for exactly the stop points that some passing names |
| Netex.LastPassingWins | src/parser.rs:342-345 | a stop point named twice keeps the times of its last passing |
| Netex.Enumerate | src/parser.rs:293-302 | numbering a map gives every key a distinct index, whose entry is that key's value |
| Netex.ResolveCalendar | src/parser.rs:293-313 | the periods are numbered one to one, and every day type refers to its period by a number in range, or has none |
| Netex.LastDeclaredUnique | src/parser.rs:305-307 | a name has at most one last declaration, so a resolved day index is fixed by the name |
| Netex.RedeclaredDayTypeUsesLast | src/parser.rs:305-307 | with the day types `A`, `A`, the name `A` resolves to position 1 and to no other |
| Netex.ResolveDayTypes | src/parser.rs:304-313 | one entry per declared day type, in order: its period's index if assigned, else `None`; each name is indexed at its last position |
| Netex.ResolvedPattern | src/parser.rs:326-329 | the resolved pattern lists the stop points by ascending `order`, each with the index of its scheduled stop |
| Netex.ResolvePattern | src/parser.rs:326-330 | the inner loop over the `BTreeMap` computes `ResolvedPattern` |
| Netex.ResolvePatterns | src/parser.rs:322-331 | each pattern name gets a distinct index, whose entry is that pattern resolved |
| Netex.DayIndices | src/parser.rs:336-339 | each day type of a journey becomes the index the day-type map holds for it, which is the last declaration of that name |
| Netex.CollectPassingTimes | src/parser.rs:342-345 | the insertion loop computes `PassingTimes` |
| Netex.PassingsAlong | src/parser.rs:346-353 | one passing per stop point of the pattern, with that stop's index and the point's times |
| Netex.ResolveJourney | src/parser.rs:334-359 | the resolved journey keeps its window, refers to each day type by the position of its last declaration and follows its pattern in `order` |
| Netex.ResolveJourneys | src/parser.rs:333-360 | every journey is resolved, in document order, with each day type at its last declaration |
| Netex.ResolvedStopsInRange | src/parser.rs:347-349 | a resolved journey refers only to numbered stops |
| Netex.ResolveFeed | src/parser.rs:293-367 | periods, stops, day types and journeys are numbered consistently, every reference resolves to the right entry (a journey's day type to the last declaration of its name), and the calendar indices are in range |
| Ordering.Ascending | src/connection_graph.rs:61-67 | the sorted times: strictly increasing, with exactly the elements of the set |
| Ordering.NeighboursAreAdjacent | src/connection_graph.rs:80-93 | no time of the station lies strictly between two neighbours of the sorted order |
| Ordering.AdjacentAreNeighbours | src/connection_graph.rs:80-93 | two times with no time between them are neighbours in the sorted order |
| Graph.WeightDetermined | src/connection_graph.rs:135-139 | the kinds and times of an edge's ends fix its weight, and the weight is non-negative |
| Graph.LegGoesForward | src/connection_graph.rs:116-139 | a pair that passes the guard goes forward in time and its edge weighs arrival minus departure |
| Graph.InitialNeighbours | src/connection_graph.rs:51-66 | the out-neighbours of a station's `Initial` vertex are exactly its time vertices |
| Graph.NoInitialNoTimes | src/connection_graph.rs:36-50 | a station without an `Initial` vertex has no time vertices |
| Graph.ChainArcsMembers | src/connection_graph.rs:80-93 | the chain holds exactly the edges between neighbours in the sorted order |
| Graph.ChainIsWaits | src/connection_graph.rs:61-93 | chaining a station's sorted times gives exactly its wait edges |
| Graph.ChainCoversWaits | src/connection_graph.rs:61-93 | once each time is chained to the next, every pair of consecutive times has its edge |
| Graph.NoTimesNoWaits | src/connection_graph.rs:69-70 | a station without times has no wait edges |
| Graph.LegArcsMembers | src/connection_graph.rs:113-139 | a journey's gathered edges are exactly the edges of its legs that pass the guard |
| Graph.LegVerticesTouched | src/connection_graph.rs:121-133 | the vertices a journey brings in are the ends of its travel edges and their anchors |
| Graph.ArcsBeforeMembers | src/connection_graph.rs:110-143 | the edges gathered up to a point in the journey loops are the leg edges of the journeys before it |
| Graph.AllTravelArcs | src/connection_graph.rs:110-143 | the edges gathered over all journeys are exactly the travel edges |
| Graph.AllVertices | src/connection_graph.rs:110-143 | the vertices brought in by all travel edges are exactly the leg ends and their stations' anchors |
| Graph.ConnectionGraph.Number | src/connection_graph.rs:31-34 | a new vertex gets `count` in both maps, `count` moves on, and the maps stay inverse |
| Graph.ConnectionGraph.GetOrInsert | src/connection_graph.rs:25-44 | a known vertex keeps its id and nothing changes. A new one gets `count`; a new time vertex then brings in `Initial` and `Final`, in that order and only if new, and their fan edges of weight 0 |
| Graph.ConnectionGraph.AddFans | src/connection_graph.rs:35-41 | the station's anchors get their ids, and both fan edges are written with weight 0 |
| Graph.ConnectionGraph.AddEdge | src/connection_graph.rs:135-139 | the edge is written, replacing any earlier weight; nothing else changes |
| Graph.ConnectionGraph.AddTravelEdge | src/connection_graph.rs:121-139 | both time vertices exist afterwards, and the edge between them weighs the time gap |
| Graph.ConnectionGraph.AddLegAt | src/connection_graph.rs:114-139 | a pair gets its travel edge iff it passes the guard |
| Graph.ConnectionGraph.AddJourneyLegs | src/connection_graph.rs:113-140 | every leg of the journey that passes the guard has its edge, and only its ends and anchors are added |
| Graph.ConnectionGraph.AddJourney | src/connection_graph.rs:111-141 | a journey contributes its legs iff it runs on the query date |
| Graph.ConnectionGraph.AddConnection | src/connection_graph.rs:111-142 | after a connection's journeys, the graph holds exactly the edges and vertices of the journeys so far |
| Graph.ConnectionGraph.constructor | src/connection_graph.rs:99-148 | every travel edge and every wait edge is present; the vertices are exactly the leg ends and their anchors; every edge between time vertices is a travel or a wait edge |
| Graph.ConnectionGraph.Built | src/connection_graph.rs:110-145 | the state after both loops satisfies the constructor's guarantees |
| Graph.ConnectionGraph.ArcWeight | src/connection_graph.rs:39-139 | an edge between time vertices weighs their positive time gap, and every other edge weighs 0 |
| Graph.ConnectionGraph.WeightsNonNegative | src/main.rs:111-117 | no edge weighs less than zero, as Dijkstra's algorithm needs |
| Graph.ConnectionGraph.OverwriteHarmless | src/connection_graph.rs:90 | rewriting an existing edge, for example a wait edge that is also a travel edge, leaves the graph unchanged |
| Graph.ConnectionGraph.StationTimesOf | src/connection_graph.rs:50-59 | the times found through the `Initial` vertex are exactly the station's times, and none when it has no `Initial` |
| Graph.ConnectionGraph.StationTimesAre | src/connection_graph.rs:51-59 | the times of the `Initial` vertex's out-neighbours are the station's times |
| Graph.ConnectionGraph.AddWaitEdge | src/connection_graph.rs:90 | the wait edge is written with the time gap as its weight |
| Graph.ConnectionGraph.ChainTimes | src/connection_graph.rs:69-93 | each time is chained to the next in sorted order, and only those edges are added |
| Graph.ConnectionGraph.ChainStation | src/connection_graph.rs:50-95 | a station gets exactly its wait edges, between consecutive times |
| Graph.ConnectionGraph.BuildWaitingEdges | src/connection_graph.rs:46-97 | every listed station gets exactly its wait edges, and the vertices do not change |

## Left out

- `src/main.rs`: argument parsing, directory walking, the compressed cache, printing, and the shortest-path search itself. The search is a call into petgraph; `WeightsNonNegative` states the precondition it needs.
- The quick_xml event loop of `parse_netex` (`src/parser.rs:128-291`). It is streaming I/O. Its output, the `Parsed*` records, is the input of `ResolveFeed`.
- chrono's parsing and formatting of dates and times. Dates and times are integers.
- `print_journey` in both files. It only writes to the console.
- serde derives and the expansion of the `netex_frames!` macro. The macro only produces a constant path prefix.
- Integer widths: `usize` ids and indices and `i64` weights are unbounded integers, and no overflow is modelled. Times of day are not limited to one day.
- `Netex.ResolvePatterns`: the source numbers each pattern as soon as it is resolved, inside one loop. The model resolves every pattern first and numbers them afterwards. Since the iteration order of a `HashMap` is unspecified, both give the same set of possible results.
- Graph.ConnectionGraph.constructor: the day is the constant `QueryDate`, as in the source. Journeys are not tested against any other date.
- Graph.ConnectionGraph.constructor: the concrete ids are stated only for one call of `GetOrInsert`. Over a whole build, the model states that the numbering is consistent, not which id each vertex gets.
- Graph.ConnectionGraph.constructor: `println!` is left out.
- Timetable.StopPlaceTypeFromStr: the `println!` of an unknown stop place type (`src/structure.rs:21`) is left out; only the `Unknown` result is modelled.
- `Vertex` uses derived `Eq`/`Hash`. Dafny's datatype equality stands for both.
