/**
 * Flight-route graph and route query (activity4/src/activity4.py).
 *
 * The networkx DiGraph the script builds is a `FlightGraph` object whose three
 * fields are updated in place: the node ids in insertion order, the node
 * attribute table, and the edge attribute table keyed by (source, destination).
 * `DiGraph` is the same state as a value; the pure functions over it
 * (`AddAirportNode`, `AddEdges`, `WeightedGraph`, `RouteQuery`) specify the
 * methods, and the lemmas state what the script relies on.
 *
 * The haversine formula is the parameter `dist` and networkx's shortest-path
 * search is the parameter `shortestPath`; neither is computed here.
 */
module FlightRoutes {
  import opened Wrappers
  import opened Subsequences

  /** A cleaned airport row; `id` is the frame's index (airport_id). */
  datatype Airport = Airport(id: int, name: string, iata: Option<string>, latitude: real, longitude: real)

  /** A cleaned route row (only the columns the graph builder reads). */
  datatype Route = Route(sourceId: int, destId: int, stops: int)

  /** Node attributes: an airport's, or none at all for a node that
    * add_edges_from creates implicitly for an unknown endpoint. */
  datatype NodeAttrs = Info(name: string, iata: Option<string>, lat: real, lon: real) | Bare

  datatype EdgeAttrs = EdgeAttrs(distancia: real, stops: int)

  /** One entry of the list handed to add_edges_from. */
  datatype WeightedEdge = WeightedEdge(source: int, dest: int, attrs: EdgeAttrs)

  /** The state of a networkx DiGraph as a value. */
  datatype DiGraph = DiGraph(order: seq<int>, nodes: map<int, NodeAttrs>, edges: map<(int, int), EdgeAttrs>)

  /** Latitude and longitude of one airport, as in the dict built by to_dict('index'). */
  datatype Coord = Coord(latitude: real, longitude: real)

  /** Great-circle distance in km from (lat1, lon1) to (lat2, lon2). */
  type Distance = (real, real, real, real) -> real

  /** The `weight` argument of the query: None (fewest hops) or an edge attribute name. */
  datatype Criterion = FewestHops | ByAttribute(key: string)

  /** networkx.shortest_path(G, source, target, weight): a node path, or None for NetworkXNoPath. */
  type PathOracle = (int, int, Criterion) -> Option<seq<int>>

  /** What the query reports. The script returns None for both failures and
    * tells them apart only by the message it prints. */
  datatype Query = CodeNotFound | NoRoute | Itinerary(path: seq<int>, total: real)

  const EmptyGraph := DiGraph([], map[], map[])

  // ---------------------------------------------------------------------------
  // Graph state and its updates

  /** Node ids are listed once each, exactly the keyed nodes are listed, and
    * every edge joins two nodes. */
  predicate WellFormed(g: DiGraph) {
    && (forall i, j :: 0 <= i < j < |g.order| ==> g.order[i] != g.order[j])
    && (forall i :: 0 <= i < |g.order| ==> g.order[i] in g.nodes)
    && (forall v :: v in g.nodes ==> v in g.order)
    && (forall e :: e in g.edges ==> e.0 in g.nodes && e.1 in g.nodes)
  }

  /** G.add_node(id, name=..., iata=..., lat=..., lon=...): a new node goes to
    * the end of the order; an existing one keeps its place and gets the new
    * attributes. */
  function AddAirportNode(g: DiGraph, a: Airport): DiGraph {
    var attrs := InfoOf(a);
    if a.id in g.nodes then g.(nodes := g.nodes[a.id := attrs])
    else g.(order := g.order + [a.id], nodes := g.nodes[a.id := attrs])
  }

  function EnsureNode(g: DiGraph, v: int): DiGraph {
    if v in g.nodes then g else g.(order := g.order + [v], nodes := g.nodes[v := Bare])
  }

  /** One step of add_edges_from: create missing endpoints (source first), then
    * set the edge's attributes, replacing those of an earlier parallel edge. */
  function AddEdge(g: DiGraph, e: WeightedEdge): DiGraph {
    var h := EnsureNode(EnsureNode(g, e.source), e.dest);
    h.(edges := h.edges[(e.source, e.dest) := e.attrs])
  }

  /** G.add_edges_from(es). */
  function AddEdges(g: DiGraph, es: seq<WeightedEdge>): DiGraph {
    if es == [] then g else AddEdge(AddEdges(g, es[..|es| - 1]), es[|es| - 1])
  }

  function Key(e: WeightedEdge): (int, int) {
    (e.source, e.dest)
  }

  /** The index of the last entry of `es` that joins `k.0` to `k.1`. */
  function LastWith(es: seq<WeightedEdge>, k: (int, int)): (r: Option<nat>)
    ensures r.Some? ==> r.value < |es| && Key(es[r.value]) == k
    ensures r.Some? ==> forall j :: r.value < j < |es| ==> Key(es[j]) != k
    ensures r.None? ==> forall j :: 0 <= j < |es| ==> Key(es[j]) != k
  {
    if es == [] then None
    else if Key(es[|es| - 1]) == k then Some(|es| - 1)
    else LastWith(es[..|es| - 1], k)
  }

  lemma EnsureNodeKeepsWellFormed(g: DiGraph, v: int)
    requires WellFormed(g)
    ensures WellFormed(EnsureNode(g, v)) && v in EnsureNode(g, v).nodes
    ensures g.nodes.Keys <= EnsureNode(g, v).nodes.Keys && EnsureNode(g, v).edges == g.edges
  {
    if v !in g.nodes {
      var h := EnsureNode(g, v);
      assert forall i :: 0 <= i < |g.order| ==> h.order[i] == g.order[i];
    }
  }

  lemma {:induction false} AddEdgesKeepsWellFormed(g: DiGraph, es: seq<WeightedEdge>)
    requires WellFormed(g)
    ensures WellFormed(AddEdges(g, es))
  {
    if es != [] {
      var e := es[|es| - 1];
      var prev := AddEdges(g, es[..|es| - 1]);
      AddEdgesKeepsWellFormed(g, es[..|es| - 1]);
      EnsureNodeKeepsWellFormed(prev, e.source);
      EnsureNodeKeepsWellFormed(EnsureNode(prev, e.source), e.dest);
    }
  }

  /** Adding edges between existing nodes never creates a node. */
  lemma {:induction false} AddEdgesKeepsNodes(g: DiGraph, es: seq<WeightedEdge>)
    requires forall i :: 0 <= i < |es| ==> es[i].source in g.nodes && es[i].dest in g.nodes
    ensures AddEdges(g, es).order == g.order && AddEdges(g, es).nodes == g.nodes
  {
    if es != [] {
      AddEdgesKeepsNodes(g, es[..|es| - 1]);
    }
  }

  /** Parallel edges collapse: the edge (s, d) exists iff it existed before or
    * some entry joins s to d, and it carries the attributes of the last such entry. */
  lemma {:induction false} AddEdgesLastWins(g: DiGraph, es: seq<WeightedEdge>, k: (int, int))
    ensures k in AddEdges(g, es).edges <==> k in g.edges || LastWith(es, k).Some?
    ensures LastWith(es, k).Some? ==> AddEdges(g, es).edges[k] == es[LastWith(es, k).value].attrs
    ensures LastWith(es, k).None? && k in g.edges ==> AddEdges(g, es).edges[k] == g.edges[k]
  {
    if es != [] {
      AddEdgesLastWins(g, es[..|es| - 1], k);
    }
  }

  /** Each entry adds at most one edge. */
  lemma {:induction false} AddEdgesCount(g: DiGraph, es: seq<WeightedEdge>)
    ensures |AddEdges(g, es).edges| <= |g.edges| + |es|
  {
    if es != [] {
      AddEdgesCount(g, es[..|es| - 1]);
    }
  }

  // ---------------------------------------------------------------------------
  // construir_grafo_con_pesos as functions

  predicate UniqueIds(airports: seq<Airport>) {
    forall i, j :: 0 <= i < j < |airports| ==> airports[i].id != airports[j].id
  }

  /** The graph after the node loop: one add_node per airport row, in row order. */
  function AirportNodes(airports: seq<Airport>): (g: DiGraph)
    ensures g.edges == map[]
    ensures forall i :: 0 <= i < |airports| ==> airports[i].id in g.nodes
  {
    if airports == [] then EmptyGraph
    else
      var g := AirportNodes(airports[..|airports| - 1]);
      assert airports == airports[..|airports| - 1] + [airports[|airports| - 1]];
      AddAirportNode(g, airports[|airports| - 1])
  }

  /** df_airports[['latitude', 'longitude']].to_dict('index'). */
  function CoordTable(airports: seq<Airport>): (m: map<int, Coord>)
    ensures forall i :: 0 <= i < |airports| ==> airports[i].id in m
  {
    if airports == [] then map[]
    else
      var last := airports[|airports| - 1];
      assert airports == airports[..|airports| - 1] + [last];
      CoordTable(airports[..|airports| - 1])[last.id := Coord(last.latitude, last.longitude)]
  }

  /** The integrity mask: both endpoints are known node ids. */
  predicate Known(r: Route, known: set<int>) {
    r.sourceId in known && r.destId in known
  }

  /** The route rows that pass the mask, in row order and with their repetitions. */
  function SafeRoutes(routes: seq<Route>, known: set<int>): (safe: seq<Route>)
    ensures |safe| <= |routes|
    ensures forall r :: r in safe ==> r in routes && Known(r, known)
    ensures forall r :: r in routes && Known(r, known) ==> r in safe
  {
    if routes == [] then []
    else
      var rest := SafeRoutes(routes[1..], known);
      assert routes == [routes[0]] + routes[1..];
      if Known(routes[0], known) then [routes[0]] + rest else rest
  }

  /** The mask keeps row order and every repetition of a kept row. */
  lemma {:induction false} SafeRoutesExact(routes: seq<Route>, known: set<int>)
    ensures Subsequence(SafeRoutes(routes, known), routes)
    ensures forall r :: multiset(SafeRoutes(routes, known))[r] == if Known(r, known) then multiset(routes)[r] else 0
  {
    if routes != [] {
      var rest := SafeRoutes(routes[1..], known);
      SafeRoutesExact(routes[1..], known);
      assert routes == [routes[0]] + routes[1..];
      if Known(routes[0], known) {
        assert ([routes[0]] + rest)[1..] == rest;
      }
    }
  }

  /** Removing rows commutes with appending one. */
  lemma {:induction false} SafeRoutesSnoc(routes: seq<Route>, x: Route, known: set<int>)
    ensures SafeRoutes(routes + [x], known) == SafeRoutes(routes, known) + if Known(x, known) then [x] else []
  {
    if routes != [] {
      assert (routes + [x])[1..] == routes[1..] + [x];
      SafeRoutesSnoc(routes[1..], x, known);
    }
  }

  function RouteKey(r: Route): (int, int) {
    (r.sourceId, r.destId)
  }

  /** The index of the last route row from `k.0` to `k.1`. */
  function LastRoute(routes: seq<Route>, k: (int, int)): (r: Option<nat>)
    ensures r.Some? ==> r.value < |routes| && RouteKey(routes[r.value]) == k
    ensures r.Some? ==> forall j :: r.value < j < |routes| ==> RouteKey(routes[j]) != k
    ensures r.None? ==> forall j :: 0 <= j < |routes| ==> RouteKey(routes[j]) != k
  {
    if routes == [] then None
    else if RouteKey(routes[|routes| - 1]) == k then Some(|routes| - 1)
    else LastRoute(routes[..|routes| - 1], k)
  }

  /** The entry appended for one surviving route: distance from the endpoints' coordinates. */
  function EdgeOf(r: Route, coords: map<int, Coord>, dist: Distance): WeightedEdge
    requires r.sourceId in coords && r.destId in coords
  {
    var o, d := coords[r.sourceId], coords[r.destId];
    WeightedEdge(r.sourceId, r.destId, EdgeAttrs(dist(o.latitude, o.longitude, d.latitude, d.longitude), r.stops))
  }

  function EdgeList(safe: seq<Route>, coords: map<int, Coord>, dist: Distance): (es: seq<WeightedEdge>)
    requires forall r :: r in safe ==> r.sourceId in coords && r.destId in coords
  {
    seq(|safe|, i requires 0 <= i < |safe| => EdgeOf(safe[i], coords, dist))
  }

  /** The coordinate dict has an entry for exactly the airport nodes. */
  lemma {:induction false} CoordTableKeys(airports: seq<Airport>)
    ensures CoordTable(airports).Keys == AirportNodes(airports).nodes.Keys
  {
    if airports != [] {
      CoordTableKeys(airports[..|airports| - 1]);
    }
  }

  /** The route rows that survive the integrity filter. */
  function SafeOf(airports: seq<Airport>, routes: seq<Route>): seq<Route> {
    SafeRoutes(routes, AirportNodes(airports).nodes.Keys)
  }

  /** The graph construir_grafo_con_pesos returns. */
  function WeightedGraph(airports: seq<Airport>, routes: seq<Route>, dist: Distance): DiGraph {
    CoordTableKeys(airports);
    AddEdges(AirportNodes(airports), EdgeList(SafeOf(airports, routes), CoordTable(airports), dist))
  }

  function InfoOf(a: Airport): NodeAttrs {
    Info(a.name, a.iata, a.latitude, a.longitude)
  }

  function Ids(airports: seq<Airport>): seq<int> {
    seq(|airports|, i requires 0 <= i < |airports| => airports[i].id)
  }

  lemma AddNewAirportKeepsWellFormed(g: DiGraph, a: Airport)
    requires WellFormed(g) && a.id !in g.nodes
    ensures WellFormed(AddAirportNode(g, a))
  {
    var h := AddAirportNode(g, a);
    assert forall i :: 0 <= i < |g.order| ==> h.order[i] == g.order[i];
  }

  /** The node loop creates a node for exactly the airport ids. */
  lemma {:induction false} AirportNodesKeys(airports: seq<Airport>)
    ensures forall v :: v in AirportNodes(airports).nodes <==> v in Ids(airports)
  {
    if airports != [] {
      var n := |airports| - 1;
      var init := airports[..n];
      AirportNodesKeys(init);
      assert Ids(airports) == Ids(init) + [airports[n].id];
    }
  }

  /** Every airport row yields exactly one node, in row order. */
  lemma {:induction false} AirportNodesOrder(airports: seq<Airport>)
    requires UniqueIds(airports)
    ensures WellFormed(AirportNodes(airports))
    ensures AirportNodes(airports).order == Ids(airports)
  {
    if airports != [] {
      var n := |airports| - 1;
      var init, a := airports[..n], airports[n];
      var g := AirportNodes(init);
      assert UniqueIds(init);
      AirportNodesOrder(init);
      assert a.id !in g.nodes;
      AddNewAirportKeepsWellFormed(g, a);
      assert AirportNodes(airports).order == g.order + [a.id];
      assert Ids(airports) == Ids(init) + [a.id] by {
        forall i | 0 <= i < |airports| ensures Ids(airports)[i] == (Ids(init) + [a.id])[i] {
          if i < n {
            assert airports[i] == init[i];
          }
        }
      }
    }
  }

  /** Each airport's node carries that row's name, IATA code and coordinates. */
  lemma {:induction false} AirportNodesInfo(airports: seq<Airport>)
    requires UniqueIds(airports)
    ensures forall i :: 0 <= i < |airports| ==> AirportNodes(airports).nodes[airports[i].id] == InfoOf(airports[i])
  {
    if airports != [] {
      var n := |airports| - 1;
      var init, a := airports[..n], airports[n];
      assert UniqueIds(init);
      AirportNodesInfo(init);
      var h := AirportNodes(airports);
      forall i | 0 <= i < |airports|
        ensures h.nodes[airports[i].id] == InfoOf(airports[i])
      {
        if i < n {
          assert airports[i] == init[i];
          assert airports[i].id != a.id;
        }
      }
    }
  }

  lemma CoordTableAt(airports: seq<Airport>, i: int)
    requires UniqueIds(airports) && 0 <= i < |airports|
    ensures CoordTable(airports)[airports[i].id] == Coord(airports[i].latitude, airports[i].longitude)
  {
    if i < |airports| - 1 {
      var init := airports[..|airports| - 1];
      assert UniqueIds(init);
      CoordTableAt(init, i);
    }
  }

  /** Every entry handed to add_edges_from joins two airport nodes. */
  lemma EdgeListEndpoints(airports: seq<Airport>, routes: seq<Route>, dist: Distance)
    ensures CoordTable(airports).Keys == AirportNodes(airports).nodes.Keys
    ensures forall i :: 0 <= i < |EdgeList(SafeOf(airports, routes), CoordTable(airports), dist)| ==>
      EdgeList(SafeOf(airports, routes), CoordTable(airports), dist)[i].source in AirportNodes(airports).nodes &&
      EdgeList(SafeOf(airports, routes), CoordTable(airports), dist)[i].dest in AirportNodes(airports).nodes
  {
    CoordTableKeys(airports);
    var safe := SafeOf(airports, routes);
    forall i | 0 <= i < |safe| ensures safe[i] in safe {
    }
  }

  /** The built graph is well formed and has exactly the airport nodes:
    * adding the edges created none. */
  lemma WeightedGraphWellFormed(airports: seq<Airport>, routes: seq<Route>, dist: Distance)
    requires UniqueIds(airports)
    ensures WellFormed(WeightedGraph(airports, routes, dist))
    ensures WeightedGraph(airports, routes, dist).order == Ids(airports)
    ensures WeightedGraph(airports, routes, dist).nodes == AirportNodes(airports).nodes
  {
    var nodes := AirportNodes(airports);
    EdgeListEndpoints(airports, routes, dist);
    var es := EdgeList(SafeOf(airports, routes), CoordTable(airports), dist);
    assert WeightedGraph(airports, routes, dist) == AddEdges(nodes, es);
    AirportNodesOrder(airports);
    AddEdgesKeepsWellFormed(nodes, es);
    AddEdgesKeepsNodes(nodes, es);
  }

  /** Every edge of the built graph joins two airports of the table. */
  lemma WeightedGraphEndpoints(airports: seq<Airport>, routes: seq<Route>, dist: Distance)
    requires UniqueIds(airports)
    ensures forall e :: e in WeightedGraph(airports, routes, dist).edges ==> e.0 in Ids(airports) && e.1 in Ids(airports)
  {
    var g := WeightedGraph(airports, routes, dist);
    WeightedGraphWellFormed(airports, routes, dist);
    forall e | e in g.edges ensures e.0 in Ids(airports) && e.1 in Ids(airports) {
      assert e.0 in g.nodes && e.1 in g.nodes;
      assert forall v :: v in g.nodes ==> v in Ids(airports);
    }
  }

  /** Removing the rows the mask drops keeps the last row for a pair of known
    * endpoints: it is the same row, found in both tables or in neither. */
  lemma {:induction false} SafeKeepsLast(routes: seq<Route>, known: set<int>, k: (int, int))
    requires k.0 in known && k.1 in known
    ensures LastRoute(SafeRoutes(routes, known), k).Some? <==> LastRoute(routes, k).Some?
    ensures LastRoute(routes, k).Some? ==>
      SafeRoutes(routes, known)[LastRoute(SafeRoutes(routes, known), k).value] == routes[LastRoute(routes, k).value]
  {
    if routes != [] {
      var n := |routes| - 1;
      var init, x := routes[..n], routes[n];
      assert routes == init + [x];
      SafeRoutesSnoc(init, x, known);
      SafeKeepsLast(init, known, k);
      var safeInit := SafeRoutes(init, known);
      assert routes[..n] == init;
      if Known(x, known) {
        var safe := safeInit + [x];
        assert safe[..|safe| - 1] == safeInit;
        assert SafeRoutes(routes, known) == safe;
        if RouteKey(x) == k {
          assert LastRoute(safe, k) == Some(|safe| - 1);
        } else {
          assert LastRoute(safe, k) == LastRoute(safeInit, k);
        }
      } else {
        assert RouteKey(x) != k;
        assert SafeRoutes(routes, known) == safeInit;
      }
    }
  }

  /** The same statement over the safe table, from add_edges_from's last-wins rule. */
  lemma WeightedGraphLastSafe(airports: seq<Airport>, routes: seq<Route>, dist: Distance, s: int, d: int)
    ensures (s, d) in WeightedGraph(airports, routes, dist).edges <==> LastRoute(SafeOf(airports, routes), (s, d)).Some?
    ensures (s, d) in WeightedGraph(airports, routes, dist).edges ==>
      WeightedGraph(airports, routes, dist).edges[(s, d)].stops
        == SafeOf(airports, routes)[LastRoute(SafeOf(airports, routes), (s, d)).value].stops
  {
    var nodes := AirportNodes(airports);
    var safe := SafeOf(airports, routes);
    CoordTableKeys(airports);
    var es := EdgeList(safe, CoordTable(airports), dist);
    assert WeightedGraph(airports, routes, dist) == AddEdges(nodes, es);
    AddEdgesLastWins(nodes, es, (s, d));
    if LastWith(es, (s, d)).Some? {
      var i := LastWith(es, (s, d)).value;
      assert Key(es[i]) == RouteKey(safe[i]);
    }
    if LastRoute(safe, (s, d)).Some? {
      var j := LastRoute(safe, (s, d)).value;
      assert Key(es[j]) == RouteKey(safe[j]);
    }
  }

  /** The edge (s, d) exists iff both are airport ids and some route row joins
    * s to d, and its stops come from the last such row of the route table. */
  lemma WeightedGraphLastWins(airports: seq<Airport>, routes: seq<Route>, dist: Distance, s: int, d: int)
    ensures (s, d) in WeightedGraph(airports, routes, dist).edges <==>
      s in Ids(airports) && d in Ids(airports) && LastRoute(routes, (s, d)).Some?
    ensures (s, d) in WeightedGraph(airports, routes, dist).edges ==>
      WeightedGraph(airports, routes, dist).edges[(s, d)].stops == routes[LastRoute(routes, (s, d)).value].stops
  {
    var known := AirportNodes(airports).nodes.Keys;
    var safe := SafeOf(airports, routes);
    WeightedGraphLastSafe(airports, routes, dist, s, d);
    AirportNodesKeys(airports);
    if s in known && d in known {
      SafeKeepsLast(routes, known, (s, d));
    } else {
      forall j | 0 <= j < |safe| ensures RouteKey(safe[j]) != (s, d) {
        assert safe[j] in safe;
      }
    }
  }

  /** Each edge's distancia is the distance function applied to its source's
    * and destination's coordinates from the airport table. */
  lemma WeightedGraphDistances(airports: seq<Airport>, routes: seq<Route>, dist: Distance)
    ensures forall e :: e in WeightedGraph(airports, routes, dist).edges ==>
      var coords := CoordTable(airports);
      && e.0 in coords && e.1 in coords
      && WeightedGraph(airports, routes, dist).edges[e].distancia ==
           dist(coords[e.0].latitude, coords[e.0].longitude, coords[e.1].latitude, coords[e.1].longitude)
  {
    var nodes := AirportNodes(airports);
    var safe := SafeOf(airports, routes);
    CoordTableKeys(airports);
    var coords := CoordTable(airports);
    var es := EdgeList(safe, coords, dist);
    forall e | e in WeightedGraph(airports, routes, dist).edges
      ensures e.0 in coords && e.1 in coords
      ensures WeightedGraph(airports, routes, dist).edges[e].distancia ==
           dist(coords[e.0].latitude, coords[e.0].longitude, coords[e.1].latitude, coords[e.1].longitude)
    {
      AddEdgesLastWins(nodes, es, e);
      var i := LastWith(es, e).value;
      assert safe[i] in safe;
    }
  }

  /** The same, read off the airport rows: the edge from row i's airport to
    * row j's airport weighs dist(lat_i, lon_i, lat_j, lon_j). */
  lemma WeightedGraphAirportDistances(airports: seq<Airport>, routes: seq<Route>, dist: Distance, i: int, j: int)
    requires UniqueIds(airports) && 0 <= i < |airports| && 0 <= j < |airports|
    requires (airports[i].id, airports[j].id) in WeightedGraph(airports, routes, dist).edges
    ensures WeightedGraph(airports, routes, dist).edges[(airports[i].id, airports[j].id)].distancia ==
      dist(airports[i].latitude, airports[i].longitude, airports[j].latitude, airports[j].longitude)
  {
    WeightedGraphDistances(airports, routes, dist);
    CoordTableAt(airports, i);
    CoordTableAt(airports, j);
  }

  /** There are no more edges than surviving routes, nor surviving routes than route rows. */
  lemma WeightedGraphEdgeCount(airports: seq<Airport>, routes: seq<Route>, dist: Distance)
    ensures |WeightedGraph(airports, routes, dist).edges| <= |SafeOf(airports, routes)| <= |routes|
  {
    var nodes := AirportNodes(airports);
    var safe := SafeOf(airports, routes);
    CoordTableKeys(airports);
    AddEdgesCount(nodes, EdgeList(safe, CoordTable(airports), dist));
  }

  // ---------------------------------------------------------------------------
  // obtener_id_por_iata and buscar_mejor_ruta as functions

  predicate HasIata(g: DiGraph, v: int, code: string) {
    v in g.nodes && g.nodes[v].Info? && g.nodes[v].iata == Some(code)
  }

  /** The first position at or after `from`, in node insertion order, whose node has IATA code `code`. */
  function FirstIataFrom(g: DiGraph, code: string, from: nat): (r: Option<nat>)
    decreases |g.order| - from
    ensures r.Some? ==> from <= r.value < |g.order| && HasIata(g, g.order[r.value], code)
    ensures r.Some? ==> forall j :: from <= j < r.value ==> !HasIata(g, g.order[j], code)
    ensures r.None? ==> forall j :: from <= j < |g.order| ==> !HasIata(g, g.order[j], code)
  {
    if from >= |g.order| then None
    else if HasIata(g, g.order[from], code) then Some(from)
    else FirstIataFrom(g, code, from + 1)
  }

  /** obtener_id_por_iata: the first node, in insertion order, with that IATA code. */
  function LookupIata(g: DiGraph, code: string): Option<int> {
    match FirstIataFrom(g, code, 0)
    case None => None
    case Some(i) => Some(g.order[i])
  }

  /** A node id counts as found only if it is truthy: `not id` holds of None and of 0. */
  predicate Truthy(id: Option<int>) {
    id.Some? && id.value != 0
  }

  predicate IsWalk(edges: map<(int, int), EdgeAttrs>, p: seq<int>) {
    forall i :: 0 <= i < |p| - 1 ==> (p[i], p[i + 1]) in edges
  }

  predicate IsPath(edges: map<(int, int), EdgeAttrs>, p: seq<int>, s: int, t: int) {
    |p| > 0 && p[0] == s && p[|p| - 1] == t && IsWalk(edges, p)
  }

  /** The oracle answers like networkx.shortest_path: a path from source to
    * target along edges, or None only when there is no such path. */
  ghost predicate OracleSound(g: DiGraph, shortestPath: PathOracle) {
    forall s, t, c ::
      s in g.nodes && t in g.nodes ==>
        match shortestPath(s, t, c)
        case Some(p) => IsPath(g.edges, p, s, t)
        case None => forall p :: !IsPath(g.edges, p, s, t)
  }

  /** The sum of `distancia` over the consecutive node pairs of `p`. */
  function PathDistance(edges: map<(int, int), EdgeAttrs>, p: seq<int>): real
    requires IsWalk(edges, p)
  {
    if |p| < 2 then 0.0
    else PathDistance(edges, p[..|p| - 1]) + edges[(p[|p| - 2], p[|p| - 1])].distancia
  }

  /** What buscar_mejor_ruta reports. */
  function RouteQuery(g: DiGraph, origin: string, destination: string, criterion: Criterion, shortestPath: PathOracle): (q: Query)
    requires OracleSound(g, shortestPath)
    ensures q == CodeNotFound <==> !Truthy(LookupIata(g, origin)) || !Truthy(LookupIata(g, destination))
    ensures q == NoRoute ==> forall p :: !IsPath(g.edges, p, LookupIata(g, origin).value, LookupIata(g, destination).value)
    ensures q.Itinerary? ==> IsPath(g.edges, q.path, LookupIata(g, origin).value, LookupIata(g, destination).value)
    ensures q.Itinerary? && |q.path| == 1 ==> q.total == 0.0
  {
    var s, t := LookupIata(g, origin), LookupIata(g, destination);
    if !Truthy(s) || !Truthy(t) then CodeNotFound
    else
      match shortestPath(s.value, t.value, criterion)
      case None => NoRoute
      case Some(p) => Itinerary(p, PathDistance(g.edges, p))
  }

  /** Python's return value: the itinerary, or None on either failure. */
  function ReturnedValue(q: Query): Option<seq<int>> {
    if q.Itinerary? then Some(q.path) else None
  }

  /** The sum of the distance function over the coordinates of consecutive stops. */
  function CoordDistance(coords: map<int, Coord>, dist: Distance, p: seq<int>): real
    requires forall i :: 0 <= i < |p| ==> p[i] in coords
  {
    if |p| < 2 then 0.0
    else
      var a, b := coords[p[|p| - 2]], coords[p[|p| - 1]];
      CoordDistance(coords, dist, p[..|p| - 1]) + dist(a.latitude, a.longitude, b.latitude, b.longitude)
  }

  /** On the graph the builder returns, an itinerary's total is the distance
    * function summed over the coordinates of its consecutive airports. */
  lemma {:induction false} ItineraryTotalIsCoordinateSum(airports: seq<Airport>, routes: seq<Route>, dist: Distance, p: seq<int>)
    requires IsWalk(WeightedGraph(airports, routes, dist).edges, p) && |p| >= 1 && p[0] in CoordTable(airports)
    ensures forall i :: 0 <= i < |p| ==> p[i] in CoordTable(airports)
    ensures PathDistance(WeightedGraph(airports, routes, dist).edges, p) == CoordDistance(CoordTable(airports), dist, p)
  {
    var g := WeightedGraph(airports, routes, dist);
    var coords := CoordTable(airports);
    WeightedGraphDistances(airports, routes, dist);
    if |p| > 1 {
      var init := p[..|p| - 1];
      ItineraryTotalIsCoordinateSum(airports, routes, dist, init);
      var e := (p[|p| - 2], p[|p| - 1]);
      assert e in g.edges;
    }
  }

  // ---------------------------------------------------------------------------
  // The map renderer's marker colours (visualizar_ruta_mapa)

  datatype MarkerColour = Blue | Green

  /** Origin and destination markers are blue, stopovers green; nothing is
    * drawn for None or an empty route. */
  function MarkerColours(route: Option<seq<int>>): seq<MarkerColour> {
    match route
    case None => []
    case Some(ids) => seq(|ids|, i => if i == 0 || i == |ids| - 1 then Blue else Green)
  }

  function CountBlue(cs: seq<MarkerColour>): nat {
    if cs == [] then 0 else (if cs[0] == Blue then 1 else 0) + CountBlue(cs[1..])
  }

  lemma {:induction false} CountBlueAppend(a: seq<MarkerColour>, b: seq<MarkerColour>)
    ensures CountBlue(a + b) == CountBlue(a) + CountBlue(b)
  {
    if a == [] {
      assert a + b == b;
    } else {
      assert (a + b)[0] == a[0] && (a + b)[1..] == a[1..] + b;
      CountBlueAppend(a[1..], b);
    }
  }

  lemma {:induction false} CountBlueNone(cs: seq<MarkerColour>)
    requires forall i :: 0 <= i < |cs| ==> cs[i] == Green
    ensures CountBlue(cs) == 0
  {
    if cs != [] {
      CountBlueNone(cs[1..]);
    }
  }

  /** A route of one or more stops has its first and last markers blue and
    * every other green, so exactly min(len, 2) markers are blue. */
  lemma BlueMarkers(route: Option<seq<int>>)
    ensures |MarkerColours(route)| == if route.None? then 0 else |route.value|
    ensures route.Some? && |route.value| > 0 ==>
      MarkerColours(route)[0] == Blue && MarkerColours(route)[|route.value| - 1] == Blue
    ensures CountBlue(MarkerColours(route)) == if route.None? then 0 else if |route.value| < 2 then |route.value| else 2
  {
    var cs := MarkerColours(route);
    if route.Some? && |route.value| >= 2 {
      var n := |cs|;
      assert cs == [cs[0]] + cs[1..n - 1] + [cs[n - 1]];
      CountBlueAppend([cs[0]] + cs[1..n - 1], [cs[n - 1]]);
      CountBlueAppend([cs[0]], cs[1..n - 1]);
      CountBlueNone(cs[1..n - 1]);
    } else if route.Some? && |route.value| == 1 {
      assert cs[1..] == [];
    }
  }

  // ---------------------------------------------------------------------------
  // The graph object and the script's loops

  class FlightGraph {
    var order: seq<int>
    var nodes: map<int, NodeAttrs>
    var edges: map<(int, int), EdgeAttrs>

    function State(): DiGraph
      reads this
    {
      DiGraph(order, nodes, edges)
    }

    /** nx.DiGraph() */
    constructor ()
      ensures State() == EmptyGraph
    {
      order, nodes, edges := [], map[], map[];
    }

    /** G.add_node(airport_id, name=..., iata=..., lat=..., lon=...) */
    method AddNode(a: Airport)
      modifies this
      ensures State() == AddAirportNode(old(State()), a)
    {
      if a.id !in nodes {
        order := order + [a.id];
      }
      nodes := nodes[a.id := Info(a.name, a.iata, a.latitude, a.longitude)];
    }

    /** G.add_edges_from(es) */
    method AddEdgesFrom(es: seq<WeightedEdge>)
      modifies this
      ensures State() == AddEdges(old(State()), es)
    {
      ghost var start := State();
      for i := 0 to |es|
        invariant State() == AddEdges(start, es[..i])
      {
        var e := es[i];
        if e.source !in nodes {
          order, nodes := order + [e.source], nodes[e.source := Bare];
        }
        if e.dest !in nodes {
          order, nodes := order + [e.dest], nodes[e.dest := Bare];
        }
        edges := edges[(e.source, e.dest) := e.attrs];
        assert es[..i + 1][..i] == es[..i];
      }
      assert es[..|es|] == es;
    }

    /** obtener_id_por_iata: scan the nodes in insertion order, return the first match. */
    method IdByIata(code: string) returns (r: Option<int>)
      requires WellFormed(State())
      ensures r == LookupIata(State(), code)
    {
      for i := 0 to |order|
        invariant forall j :: 0 <= j < i ==> !HasIata(State(), order[j], code)
      {
        var attrs := nodes[order[i]];
        if attrs.Info? && attrs.iata == Some(code) {
          return Some(order[i]);
        }
      }
      return None;
    }

    /** buscar_mejor_ruta: resolve both codes, ask the oracle, add up the legs. */
    method BestRoute(origin: string, destination: string, criterion: Criterion, shortestPath: PathOracle) returns (q: Query)
      requires WellFormed(State()) && OracleSound(State(), shortestPath)
      ensures q == RouteQuery(State(), origin, destination, criterion, shortestPath)
    {
      var s := IdByIata(origin);
      var t := IdByIata(destination);
      if !Truthy(s) || !Truthy(t) {
        return CodeNotFound;
      }
      var found := shortestPath(s.value, t.value, criterion);
      if found.None? {
        return NoRoute;
      }
      var p := found.value;
      var total := 0.0;
      for i := 0 to |p|
        invariant total == PathDistance(edges, p[..if i + 1 < |p| then i + 1 else |p|])
      {
        if i < |p| - 1 {
          assert p[..i + 2][..i + 1] == p[..i + 1];
          total := total + edges[(p[i], p[i + 1])].distancia;
        }
      }
      assert p[..|p|] == p;
      return Itinerary(p, total);
    }
  }

  /** The list comprehension of construir_grafo_con_pesos: one weighted edge
    * per surviving route, in route order. */
  method ComputeEdges(safe: seq<Route>, coords: map<int, Coord>, dist: Distance) returns (es: seq<WeightedEdge>)
    requires forall r :: r in safe ==> r.sourceId in coords && r.destId in coords
    ensures es == EdgeList(safe, coords, dist)
  {
    es := [];
    for i := 0 to |safe|
      invariant es == EdgeList(safe[..i], coords, dist)
    {
      var r := safe[i];
      assert r in safe;
      var o, d := coords[r.sourceId], coords[r.destId];
      var km := dist(o.latitude, o.longitude, d.latitude, d.longitude);
      es := es + [WeightedEdge(r.sourceId, r.destId, EdgeAttrs(km, r.stops))];
    }
    assert safe[..|safe|] == safe;
  }

  /** construir_grafo_con_pesos: insert the airport nodes, keep the routes
    * between known nodes, compute each one's distance, add the edges in bulk. */
  method BuildWeightedGraph(airports: seq<Airport>, routes: seq<Route>, dist: Distance) returns (g: FlightGraph)
    requires UniqueIds(airports)
    ensures fresh(g)
    ensures g.State() == WeightedGraph(airports, routes, dist)
    ensures WellFormed(g.State())
  {
    g := new FlightGraph();
    for i := 0 to |airports|
      invariant g.State() == AirportNodes(airports[..i])
    {
      g.AddNode(airports[i]);
      assert airports[..i + 1][..i] == airports[..i];
    }
    assert airports[..|airports|] == airports;
    var safe := SafeRoutes(routes, g.nodes.Keys);
    var coords := CoordTable(airports);
    CoordTableKeys(airports);
    var es := ComputeEdges(safe, coords, dist);
    g.AddEdgesFrom(es);
    WeightedGraphWellFormed(airports, routes, dist);
  }
}
