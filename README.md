# Data-science scripts: verified model of their kernels

This project models the small sequential kernels of five data-science scripts. The libraries they call (pandas, networkx, rdflib, pyvis, folium) are reduced to the behaviour the scripts rely on:

- **Flight routes** (`flight_routes.dfy`, module `FlightRoutes`). The directed airport graph built from an airport table and a route table.
  - The graph is a `FlightGraph` object whose node order, node table and edge table are updated in place.
  - Routes are kept only when both endpoints are known airports.
  - Parallel routes collapse to one edge, and the last one wins.
  - Each edge is weighted by a distance function applied to its endpoints' coordinates.
  - IATA lookup is a first-match scan in node insertion order.
  - The route query has three outcomes (code not found, no route, itinerary) and sums the legs of the itinerary.
  - Map markers are blue at the ends of the route and green in between.
- **Wine sales** (`wine_sales.dfy`, module `WineSales`).
  - The eight-column rename.
  - The `%Y%m` reading of `date_int`.
  - The per-month group sum in month order.
  - Gap filling with zeros from the first to the last month.
  - The split that keeps the last two months for testing.
- **Bike stations** (`bike_stations.dfy`, module `BikeStations`).
  - The filter that drops incomplete rows and rows outside the strict coordinate box.
  - The loop that gives each row a circle marker of radius 5, coloured by cluster id modulo the seven-colour palette.
- **Hospital coverage** (`hospital_coverage.dfy`, module `HospitalCoverage`).
  - Hospital counts per neighbourhood key.
  - The left merge with zero fill.
  - The three coverage categories.
  - The sort by count.
  - The colour table used by the map.
- **University RDF graph** (`semantic_graph.dfy`, module `SemanticGraph`).
  - Six `add` calls per university on a set of triples, so 28 distinct triples.
  - Local-name extraction, the text after the last `#`.
  - The networkx static view: `rdf:type` skipped, nodes by local name, the last `relacion` wins, styles by name.
  - The pyvis interactive view: the first `add_node` fixes a node's style, and every edge is kept.

`wrappers.dfy` holds the `Option` and `Result` types shared by the modules. `subsequences.dfy` defines order-preserving selection (`Subsequence`), used to state that the row filters keep row order.

## Model

| member | source | states |
|---|---|---|
| FlightRoutes.FlightGraph.constructor | activity4/src/activity4.py:65 | a new DiGraph has no nodes and no edges |
| FlightRoutes.FlightGraph.AddNode | activity4/src/activity4.py:69-75 | add_node appends a new id to the node order, keeps the place of an existing id, and sets its attributes |
| FlightRoutes.FlightGraph.AddEdgesFrom | activity4/src/activity4.py:104 | the new graph state is `AddEdges` of the old one: missing endpoints are created, then each edge's attributes are set |
| FlightRoutes.AddEdgesKeepsWellFormed | activity4/src/activity4.py:104 | bulk edge insertion keeps node ids unique and every edge between two nodes |
| FlightRoutes.AddEdgesKeepsNodes | activity4/src/activity4.py:78-82 | edges whose endpoints are already nodes create no node |
| FlightRoutes.AddEdgesLastWins | activity4/src/activity4.py:89-104 | an edge exists iff it existed before or some entry joins its endpoints, and it carries the attributes of the last such entry |
| FlightRoutes.AddEdgesCount | activity4/src/activity4.py:104 | each entry adds at most one edge |
| FlightRoutes.LastWith | activity4/src/activity4.py:89-104 | finds the last entry with a given (source, destination) pair, or reports that none has it |
| FlightRoutes.AirportNodes | activity4/src/activity4.py:67-75 | the node loop adds no edges and gives every airport row a node |
| FlightRoutes.AirportNodesOrder | activity4/src/activity4.py:67-75 | with unique ids, there is exactly one node per airport row, in row order |
| FlightRoutes.AirportNodesInfo | activity4/src/activity4.py:69-75 | each airport's node carries that row's name, IATA code, latitude and longitude |
| FlightRoutes.CoordTable | activity4/src/activity4.py:85 | the coordinate dict has an entry for every airport row |
| FlightRoutes.CoordTableKeys | activity4/src/activity4.py:85 | the coordinate dict's keys are exactly the airport nodes |
| FlightRoutes.CoordTableAt | activity4/src/activity4.py:85 | the entry for an airport holds that row's latitude and longitude |
| FlightRoutes.SafeRoutes | activity4/src/activity4.py:78-82 | a route survives iff its source and destination are both node ids; nothing else is added |
| FlightRoutes.SafeRoutesExact | activity4/src/activity4.py:78-82 | the surviving routes keep their row order (a subsequence of the table), and each kept row keeps its multiplicity while a dropped one occurs 0 times |
| FlightRoutes.SafeRoutesSnoc | activity4/src/activity4.py:78-82 | masking a table with one more row appends that row exactly when both its endpoints are known |
| FlightRoutes.LastRoute | activity4/src/activity4.py:89-104 | finds the last route row with a given (source, destination) pair, or reports that no row has it |
| FlightRoutes.SafeKeepsLast | activity4/src/activity4.py:78-104 | for known endpoints, the mask keeps the last row of the pair: the same row is last in both tables, or the pair is in neither |
| FlightRoutes.AirportNodesKeys | activity4/src/activity4.py:67-75 | the node loop creates a node for exactly the airport ids |
| FlightRoutes.WeightedGraphLastSafe | activity4/src/activity4.py:89-104 | edge (s, d) exists iff some surviving route joins s to d, and its stops are those of the last such surviving route |
| FlightRoutes.EdgeListEndpoints | activity4/src/activity4.py:89-102 | every entry handed to add_edges_from joins two airport nodes |
| FlightRoutes.WeightedGraphWellFormed | activity4/src/activity4.py:59-106 | the built graph is well formed, and its nodes are exactly the airport nodes in row order |
| FlightRoutes.WeightedGraphEndpoints | activity4/src/activity4.py:78-104 | every edge joins two airports of the table |
| FlightRoutes.WeightedGraphLastWins | activity4/src/activity4.py:78-104 | edge (s, d) exists iff s and d are airport ids and some row of the route table joins s to d, and its stops are those of the last such row of the route table |
| FlightRoutes.WeightedGraphDistances | activity4/src/activity4.py:85-102 | each edge's distancia is the distance function applied to its endpoints' coordinates |
| FlightRoutes.WeightedGraphAirportDistances | activity4/src/activity4.py:93-100 | the edge from row i's airport to row j's weighs dist(lat_i, lon_i, lat_j, lon_j) |
| FlightRoutes.WeightedGraphEdgeCount | activity4/src/activity4.py:78-104 | edges are no more than the surviving routes, which are no more than the route rows |
| FlightRoutes.ComputeEdges | activity4/src/activity4.py:87-102 | the loop builds one weighted edge per surviving route, in route order, weighted by the distance between the endpoints' coordinates |
| FlightRoutes.BuildWeightedGraph | activity4/src/activity4.py:59-106 | the method's graph is the specified weighted graph, and it is well formed |
| FlightRoutes.FirstIataFrom | activity4/src/activity4.py:112-115 | the first position in node order whose node has the IATA code, or none has it |
| FlightRoutes.FlightGraph.IdByIata | activity4/src/activity4.py:108-115 | the scan returns the first node in insertion order with that code, or None |
| FlightRoutes.RouteQuery | activity4/src/activity4.py:122-151 | "not found" iff either lookup is falsy (None or id 0); "no route" only when no path exists; otherwise a path from origin to destination; a one-stop path totals 0 |
| FlightRoutes.FlightGraph.BestRoute | activity4/src/activity4.py:117-151 | the method's outcome, with the loop-accumulated total, is the specified query result |
| FlightRoutes.ItineraryTotalIsCoordinateSum | activity4/src/activity4.py:135-146 | on the built graph, an itinerary's total is the distance function summed over consecutive stops' coordinates |
| FlightRoutes.BlueMarkers | activity4/src/activity4.py:158-180 | one marker per stop; the first and last are blue and the rest green, so min(len, 2) are blue; None draws nothing |
| WineSales.MonthIndexRoundTrip | activity3/activity3.py:42 | a month's index maps back to the same year and month |
| WineSales.MonthOfRoundTrip | activity3/activity3.py:42 | every index is a valid month whose index is itself |
| WineSales.ParseYearMonth | activity3/activity3.py:30 | an accepted date_int is a 4-digit year followed by a month 1..12: year*100+month from six digits on, year*10+month with a month 1..9 below six digits |
| WineSales.ParseYearMonthRoundTrip | activity3/activity3.py:30 | yyyy*100+mm parses back to (yyyy, mm) |
| WineSales.ParseYearMonthShortRoundTrip | activity3/activity3.py:30 | the five-digit form yyyy*10+m, for a month 1..9, parses back to (yyyy, m) |
| WineSales.Rename | activity3/activity3.py:26-27 | renaming succeeds iff the frame has exactly 8 columns, and otherwise raises a length mismatch |
| WineSales.ParseDates | activity3/activity3.py:30 | the whole date column converts iff every row's date parses, and then row i gives row i's month |
| WineSales.ParseAmounts | activity3/activity3.py:34 | the sales column sums iff no value is text, and then row i gives row i's amount, 0 for a missing one |
| WineSales.ParseRows | activity3/activity3.py:30-34 | a date error iff some row's date fails, whichever row it is; a sales error iff every date parses and some sales value is text; otherwise one sale per row, in order, with that row's month and amount |
| WineSales.GroupSumSpec | activity3/activity3.py:34-37 | the grouped series is strictly increasing by month, has exactly the months present, and each total is that month's sum of sales |
| WineSales.GroupSumTotals | activity3/activity3.py:34 | each grouped entry's month is present in the input and its total is that month's sum |
| WineSales.AddSaleTotals | activity3/activity3.py:34 | adding one sale raises only its month's total, by its amount |
| WineSales.FirstMonth | activity3/activity3.py:42 | the smallest month of the series |
| WineSales.LastMonth | activity3/activity3.py:42 | the largest month of the series |
| WineSales.GroupSumBounds | activity3/activity3.py:37-42 | the grouped series starts at the earliest sale and ends at the latest |
| WineSales.Transform | activity3/activity3.py:18-45 | a length mismatch iff the column count is not 8; a date error iff there are 8 columns and some date fails; a sales error iff 8 columns, every date parses and some sales value is text; on success, the monthly series of the parsed rows |
| WineSales.MonthlySeriesShape | activity3/activity3.py:42 | consecutive months from the earliest to the latest sale, length last - first + 1, each holding that month's sum |
| WineSales.MonthlySeriesIncreasing | activity3/activity3.py:37-42 | the filled series is strictly increasing by month |
| WineSales.GapMonthsAreZero | activity3/activity3.py:42 | a month with no input rows has total 0 |
| WineSales.MonthlySeriesConserves | activity3/activity3.py:34-42 | the sum over the series equals the sum of all input sales |
| WineSales.SliceBound | activity3/activity3.py:82-85 | a Python slice bound lies within the sequence |
| WineSales.TrainTestSplit | activity3/activity3.py:82-85 | train followed by test is the series; for 2 or more entries the test has exactly 2; for fewer, train is empty |
| BikeStations.CleanData | activity1/activity1.py:23-26 | every kept row is complete and strictly inside the box, and every such input row is kept |
| BikeStations.CleanDataExact | activity1/activity1.py:23-26 | each row keeps its multiplicity if kept, and occurs 0 times otherwise |
| BikeStations.CleanDataOrder | activity1/activity1.py:26 | the output is a subsequence of the input, in order |
| BikeStations.CleanDataIdempotent | activity1/activity1.py:23-26 | cleaning a cleaned table changes nothing |
| BikeStations.ColourIndex | activity1/activity1.py:105-106 | the palette index lies in 0..6 and is congruent to the cluster id modulo 7 |
| BikeStations.MarkerStyle | activity1/activity1.py:98-106 | every radius is 5; the colour is in the palette and repeats every 7 clusters |
| BikeStations.CreateMarkers | activity1/activity1.py:97-118 | the loop gives one marker per row, in row order, as MarkerFor describes |
| BikeStations.MarkersOfCleanRowsInBox | activity1/activity1.py:24 | markers of cleaned rows lie strictly inside the box |
| HospitalCoverage.CountOf | activity2/src/activity2_2.py:14 | a key's count is 0 iff no join pair has that key, and at most the number of pairs |
| HospitalCoverage.AddKeyCounts | activity2/src/activity2_2.py:14 | counting one more pair raises only its key's count, by 1 |
| HospitalCoverage.ConteoSpec | activity2/src/activity2_2.py:13-14 | the counts have unique keys, exactly the joined keys, each equal to its number of pairs, and sum to the number of pairs |
| HospitalCoverage.MatchRowsUnique | activity2/src/activity2_2.py:15 | with unique keys, a neighbourhood matches one count row or none |
| HospitalCoverage.MergeLeftOneRowEach | activity2/src/activity2_2.py:15 | the left merge keeps exactly one row per neighbourhood, with its count or none |
| HospitalCoverage.MergeLeftDuplicatesRows | activity2/src/activity2_2.py:14-15 | with duplicate keys the merge would duplicate a neighbourhood, so key uniqueness matters |
| HospitalCoverage.FillNa | activity2/src/activity2_2.py:16 | row i keeps its neighbourhood and any present count, and holds 0 iff its count was missing or 0 |
| HospitalCoverage.FilledCounts | activity2/src/activity2_2.py:13-16 | after merge and fillna, row i is neighbourhood i with its number of joined hospitals, 0 when none joined it |
| HospitalCoverage.Clasificar | activity2/src/activity2_2.py:19-25 | "0: Sin Cobertura" iff n = 0, "1: Un Hospital o Centro de salud" iff n = 1, "2+: Múltiples Centros" otherwise |
| HospitalCoverage.Classify | activity2/src/activity2_2.py:27 | each row keeps its neighbourhood and count, and its category is "Sin Cobertura" iff the count is 0, one-centre iff it is 1, "Múltiples" iff it is 2 or more |
| HospitalCoverage.ClassifiedRows | activity2/src/activity2_2.py:13-27 | before sorting, row i is neighbourhood i with its join count and that count's category |
| HospitalCoverage.InsertByCount | activity2/src/activity2_2.py:30 | insertion keeps the rows sorted and adds exactly one row |
| HospitalCoverage.SortByCount | activity2/src/activity2_2.py:30 | the output is non-decreasing by count and a permutation of the input |
| HospitalCoverage.AnalisisFinalSpec | activity2/src/activity2_2.py:13-30 | one row per neighbourhood, sorted by count, each with its join count and its category |
| HospitalCoverage.ZeroCountMeansNoHospital | activity2/src/activity2_2.py:13-21 | a neighbourhood counts 0, and is "Sin Cobertura", iff no hospital joined it |
| HospitalCoverage.CmapColours | activity2/src/activity2_2.py:48-50 | the colour list builds iff all three category keys are in the dict |
| HospitalCoverage.CmapAsWrittenRaises | activity2/src/activity2_2.py:38-50 | with the dict as written, the lookup of the one-centre category fails |
| HospitalCoverage.CmapCorrectedBuilds | activity2/src/activity2_2.py:38-50 | with the key matching the category, the colour list builds and every category has a colour |
| SemanticGraph.TripleStore.constructor | activity5/Activity5.py:16 | a new graph holds no triples |
| SemanticGraph.TripleStore.Add | activity5/Activity5.py:38-43 | add inserts one triple into the set |
| SemanticGraph.AddUniversity | activity5/Activity5.py:38-43 | one iteration adds exactly the six triples of that university |
| SemanticGraph.AddUniversities | activity5/Activity5.py:37-43 | the loop adds exactly the six triples of every university |
| SemanticGraph.ConstruirGrafoSemantico | activity5/Activity5.py:14-45 | the graph holds exactly the triples of the five-university table |
| SemanticGraph.NatToString | activity5/Activity5.py:41 | an integer literal's lexical form is a non-empty string of digits |
| SemanticGraph.NatToStringNumeral | activity5/Activity5.py:41 | that string is the decimal numeral of the number (its digits denote n) and starts with '0' only for 0 |
| SemanticGraph.TriplesOfSubjects | activity5/Activity5.py:37-43 | every subject is a university or a city of the table; subjects of non-type triples are universities |
| SemanticGraph.TriplesOfCount | activity5/Activity5.py:37-43 | with distinct names that are not cities: 5 triples per university plus one per distinct city |
| SemanticGraph.DatosUnisTripleCount | activity5/Activity5.py:28-43 | the table yields 28 distinct triples |
| SemanticGraph.LocalNameSuffix | activity5/Activity5.py:54 | the local name is a suffix without '#', preceded by '#' unless it is the whole string |
| SemanticGraph.LastPieceIsLocalName | activity5/Activity5.py:54-55 | split('#')[-1] is the local name |
| SemanticGraph.ObjectNameIsLocalName | activity5/Activity5.py:54-56 | the conditional extraction for objects equals the plain one for subjects |
| SemanticGraph.LocalNameOfEx | activity5/Activity5.py:18 | the local name of an EX term is its name, when the name has no '#' |
| SemanticGraph.LastEdgeSpec | activity5/Activity5.py:52-58 | finds the last non-type triple from u to v, or reports that none draws (u, v) |
| SemanticGraph.StaticGraphNodes | activity5/Activity5.py:52-58 | nodes are distinct, and a name is a node iff some non-type triple names it |
| SemanticGraph.StaticGraphEdges | activity5/Activity5.py:52-58 | edge (u, v) exists iff a non-type triple runs from u to v, and its relacion is the predicate of the last such triple |
| SemanticGraph.StaticGraphIgnoresTypes | activity5/Activity5.py:53 | removing the rdf:type triples leaves the static view unchanged |
| SemanticGraph.WithoutTypes | activity5/Activity5.py:53 | keeps exactly the triples whose predicate is not rdf:type |
| SemanticGraph.WithoutTypesExact | activity5/Activity5.py:53 | the kept triples are in enumeration order (a subsequence) and each keeps its multiplicity, while type triples occur 0 times |
| SemanticGraph.StaticStyle | activity5/Activity5.py:62-71 | ("#a2d2ff", 3000) iff a university, ("#ffb5a7", 2500) iff a city and not a university, ("#e9ecef", 1200) otherwise |
| SemanticGraph.VisualizacionEstatica | activity5/Activity5.py:47-71 | the graph is the specified static view, and the colour and size lists align with the node order |
| SemanticGraph.ObjectStyle | activity5/Activity5.py:113-116 | pink with size 20 iff a city, grey with size 15 otherwise |
| SemanticGraph.VisualizacionInteractiva | activity5/Activity5.py:104-118 | the network is the specified interactive view |
| SemanticGraph.InteractiveNetShape | activity5/Activity5.py:104-118 | node ids are unique, and each non-type triple adds one edge, in order, titled by its predicate |
| SemanticGraph.ObjectOnlyNodeStyle | activity5/Activity5.py:111-116 | a name that is never a subject keeps the object style it was first added with |
| SemanticGraph.SubjectIsUniversity | activity5/Activity5.py:37-43 | the subject of a non-type triple is named after a university of the table |
| SemanticGraph.TableSubjects | activity5/Activity5.py:37-43 | a name that is not a university is the subject of no non-type triple |
| SemanticGraph.CitiesPinkInteractive | activity5/Activity5.py:104-116 | in any enumeration order of the university graph, a city node is pink with size 20 and any other non-university node grey with size 15 |

## Left out

- File reading and writing, console output and all rendering are not modelled. This covers read_csv, read_excel, read_file, savefig, save, save_graph, serialize and print, as well as folium, matplotlib and pyvis drawing.
- Airport and route loading and cleaning (activity4/src/activity4.py:6-34) is not modelled. Graph building requires instead that airport ids be unique.
- The haversine formula is floating-point trigonometry. It is the parameter `dist` of the graph builder.
- FlightRoutes.FlightGraph.BestRoute: distances are exact reals, and the total is their exact sum. The script accumulates Python floats, so rounding in the sum is not modelled.
- FlightRoutes.PathDistance: the sum of leg distances is exact, not a float accumulation (see BestRoute).
- networkx.shortest_path is library code. It is the parameter `shortestPath` of the query, required to return a path along edges, or None only when no path exists. Shortest-ness is not modelled.
- FlightRoutes.RouteQuery: the printed messages are not modelled. The script returns None for both failures; the model keeps the two outcomes apart, and `ReturnedValue` maps them to the single None.
- FlightRoutes.BlueMarkers: popups, tooltips, icons and the polyline are not modelled, only the marker colours.
- WineSales.ParseYearMonth: pandas Timestamp range limits (years 1677 to 2262) are not modelled, only the `%Y%m` digit pattern.
- WineSales.ParseRows: a blank or text date is modelled as a parse error. A text sales value is modelled as an error. A missing sales value adds 0, as groupby().sum() skips NaN.
- WineSales.ParseAmounts: sales are unbounded integers. pandas holds them as int64, or as float64 once a value is missing, so int64 overflow and float rounding of large totals are not modelled; MonthlySeriesConserves holds for the exact sums only.
- WineSales.MonthlySeriesConserves: the totals are exact integer sums, not int64 or float64 sums (see ParseAmounts).
- WineSales.Transform: the name given to the series and the mutation of the caller's frame are not modelled.
- Seasonal decomposition, auto_arima, forecasting, RMSE and K-means are library model fitting and are not modelled.
- HospitalCoverage.ConteoSpec: the spatial join is given as a relation of (hospital, neighbourhood key) pairs. The count table is kept in order of first appearance rather than groupby's sorted key order; the merge does not depend on that order.
- HospitalCoverage.FillNa: pandas turns the merged count column into floats after fillna. The model keeps counts as natural numbers.
- HospitalCoverage.SortByCount: sort_values' tie order is not specified. The model proves sortedness and permutation only.
- Coordinate reprojection, buffers and the coverage percentage are geometry and floats, and are not modelled.
- SemanticGraph.VisualizacionEstatica: rdflib's triple iteration order is unspecified, so both views take the enumeration order as a parameter. spring_layout and its position scaling are floats and are not modelled.
- SemanticGraph.VisualizacionInteractiva: pyvis add_node ignores an id that is already present, and a directed add_edge appends every edge. This library behaviour is taken as given. Labels, edge colours and physics settings are not modelled.
- SemanticGraph.AddUniversities: rdflib literals are modelled by lexical form and datatype IRI only. Literal normalisation beyond decimal digits and "true"/"false" is not modelled.

## Findings

| source | as written | input that shows it | evidently intended | confidence | as-written member | corrected member |
|---|---|---|---|---|---|---|
| activity2/src/activity2_2.py:38-50 | the colour dict has the key "1: Un Centro", but the colour list looks up "1: Un Hospital o Centro de salud", the label `clasificar` returns | any run that reaches the plot: the lookup raises KeyError before the map is drawn | the dict key is the category label "1: Un Hospital o Centro de salud", so the three colours are grey, orange and red | not executed | HospitalCoverage.CmapAsWrittenRaises | HospitalCoverage.CmapCorrectedBuilds |
