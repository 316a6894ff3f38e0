/**
 * Bike-station coordinate validation and map markers (activity1/activity1.py).
 *
 * `clean_data` drops every row that has a missing value in any column and
 * then keeps the rows strictly inside the box 18 < latitud < 20,
 * -100 < longitud < -98. `create_map` walks the rows and gives each a
 * circle marker of radius (20 - 10) / 2 coloured by its cluster id modulo
 * the seven-colour palette. Cleaning is a pure filter; the marker loop is a
 * method proved against the function that describes one marker.
 */
module BikeStations {
  import opened Wrappers
  import opened Subsequences

  /** One station row: the two coordinates and the remaining columns, any of which may be missing. */
  datatype StationRow = StationRow(latitud: Option<real>, longitud: Option<real>, fields: seq<Option<string>>)

  /** A row after `clustering` added its cluster label. */
  datatype ClusteredRow = ClusteredRow(station: StationRow, cluster: int)

  datatype Marker = Marker(latitud: Option<real>, longitud: Option<real>, radius: real, colour: string)

  const Palette: seq<string> := ["red", "blue", "green", "purple", "orange", "darkred", "beige"]
  const Capacity := 20

  // ---------------------------------------------------------------------------
  // clean_data

  /** dropna(): no column of the row is missing. */
  predicate Complete(r: StationRow) {
    r.latitud.Some? && r.longitud.Some? && forall i :: 0 <= i < |r.fields| ==> r.fields[i].Some?
  }

  /** The mask, all four bounds strict. */
  predicate InBox(r: StationRow)
    requires r.latitud.Some? && r.longitud.Some?
  {
    18.0 < r.latitud.value < 20.0 && -100.0 < r.longitud.value < -98.0
  }

  predicate Kept(r: StationRow) {
    Complete(r) && InBox(r)
  }

  function CleanData(rows: seq<StationRow>): (clean: seq<StationRow>)
    ensures |clean| <= |rows|
    ensures forall r :: r in clean ==> r in rows && Kept(r)
    ensures forall r :: r in rows && Kept(r) ==> r in clean
  {
    if rows == [] then []
    else if Kept(rows[0]) then [rows[0]] + CleanData(rows[1..])
    else CleanData(rows[1..])
  }

  /** The filter is exact: each row occurs in the output as often as in the
    * input if it is complete and inside the box, and not at all otherwise. */
  lemma {:induction false} CleanDataExact(rows: seq<StationRow>)
    ensures forall r :: multiset(CleanData(rows))[r] == if Kept(r) then multiset(rows)[r] else 0
  {
    if rows != [] {
      CleanDataExact(rows[1..]);
      assert rows == [rows[0]] + rows[1..];
    }
  }

  /** The output keeps the input's order. */
  lemma {:induction false} CleanDataOrder(rows: seq<StationRow>)
    ensures Subsequence(CleanData(rows), rows)
  {
    if rows != [] {
      CleanDataOrder(rows[1..]);
      var rest := CleanData(rows[1..]);
      if Kept(rows[0]) {
        assert CleanData(rows) == [rows[0]] + rest;
        assert ([rows[0]] + rest)[1..] == rest;
      }
    }
  }

  /** Cleaning a cleaned table changes nothing. */
  lemma {:induction false} CleanDataIdempotent(rows: seq<StationRow>)
    ensures CleanData(CleanData(rows)) == CleanData(rows)
  {
    if rows != [] {
      CleanDataIdempotent(rows[1..]);
      var rest := CleanData(rows[1..]);
      if Kept(rows[0]) {
        assert ([rows[0]] + rest)[1..] == rest;
      }
    }
  }

  // ---------------------------------------------------------------------------
  // create_map

  /** colores[cluster_id % len(colores)]; Python's % with a positive divisor is never negative. */
  function ColourIndex(cluster: int): (k: int)
    ensures 0 <= k < |Palette|
    ensures (cluster - k) % |Palette| == 0
  {
    cluster % |Palette|
  }

  /** radio = (capacidad - 10) / 2 with Python's true division. */
  function Radius(): real {
    (Capacity - 10) as real / 2.0
  }

  function MarkerFor(r: ClusteredRow): Marker {
    Marker(r.station.latitud, r.station.longitud, Radius(), Palette[ColourIndex(r.cluster)])
  }

  /** Every marker has radius 5 and a palette colour; clusters seven apart share a colour. */
  lemma MarkerStyle(r: ClusteredRow)
    ensures MarkerFor(r).radius == 5.0
    ensures MarkerFor(r).colour in Palette
    ensures MarkerFor(r).colour == MarkerFor(r.(cluster := r.cluster + |Palette|)).colour
    ensures 0 <= r.cluster < |Palette| ==> MarkerFor(r).colour == Palette[r.cluster]
  {
  }

  /** The loop of create_map: one marker per row, in row order. */
  method CreateMarkers(rows: seq<ClusteredRow>) returns (markers: seq<Marker>)
    ensures |markers| == |rows|
    ensures forall i :: 0 <= i < |rows| ==> markers[i] == MarkerFor(rows[i])
  {
    markers := [];
    for i := 0 to |rows|
      invariant |markers| == i
      invariant forall k :: 0 <= k < i ==> markers[k] == MarkerFor(rows[k])
    {
      var capacidad := Capacity;
      var radio := (capacidad - 10) as real / 2.0;
      var colour := Palette[rows[i].cluster % |Palette|];
      markers := markers + [Marker(rows[i].station.latitud, rows[i].station.longitud, radio, colour)];
    }
  }

  /** Markers drawn for cleaned rows all sit strictly inside the box. */
  lemma MarkersOfCleanRowsInBox(rows: seq<ClusteredRow>)
    requires forall i :: 0 <= i < |rows| ==> Kept(rows[i].station)
    ensures forall i :: 0 <= i < |rows| ==>
      && MarkerFor(rows[i]).latitud.Some? && MarkerFor(rows[i]).longitud.Some?
      && 18.0 < MarkerFor(rows[i]).latitud.value < 20.0
      && -100.0 < MarkerFor(rows[i]).longitud.value < -98.0
  {
  }
}
