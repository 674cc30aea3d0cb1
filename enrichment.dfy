/** `get_theatre_coordinates`: every distinct `cinema_place` of the table is looked up
    once, in the order of first appearance, and the first result's coordinates are joined
    back onto every row with a left merge on `cinema_place`.

    The geocoding service is the parameter `geocode`, from the query text to the list of
    results the service returns (the HTTP request, the credentials and the JSON decoding
    are not part of this model). Coordinates are copied, never computed. */
module Enrichment {
  import opened Wrappers
  import opened Seqs
  import opened Table

  /** The location of one search result. */
  datatype GeoPlace = GeoPlace(lat: real, lng: real)

  /** A row of `theatre_locations_df`. */
  datatype TheatreLocation = TheatreLocation(cinemaPlace: string, latitude: real, longitude: real)

  /** A row of the merged table: the program row and, when its key was found, the
      coordinates. */
  datatype EnrichedRow = EnrichedRow(row: ProgramRow, latitude: Option<real>, longitude: Option<real>)

  function Key(r: ProgramRow): string { r.cinemaPlace }

  /** `showtimes_df["cinema_place"].unique()`. */
  function Theatres(rows: seq<ProgramRow>): seq<string>
  {
    Unique(Map(rows, Key))
  }

  /** The location the first search result gives a theatre. */
  function Locate(theatre: string, results: seq<GeoPlace>): TheatreLocation
    requires results != []
  {
    TheatreLocation(theatre, results[0].lat, results[0].lng)
  }

  /** The rows of `theatre_locations_df`, or the failure at the first theatre the service
      finds nothing for (`my_result[0]` on an empty list). */
  function Locations(theatres: seq<string>, geocode: string -> seq<GeoPlace>): (r: Result<seq<TheatreLocation>, ScrapeError>)
    ensures r.Ok? <==> forall k :: 0 <= k < |theatres| ==> geocode(theatres[k]) != []
    ensures r.Ok? ==> |r.value| == |theatres| && forall k :: 0 <= k < |theatres| ==>
      geocode(theatres[k]) != [] && r.value[k] == Locate(theatres[k], geocode(theatres[k]))
    ensures r.Err? ==> exists i :: (0 <= i < |theatres| && geocode(theatres[i]) == []
      && (forall k :: 0 <= k < i ==> geocode(theatres[k]) != []) && r.error == NoGeocodingResult(theatres[i]))
  {
    if theatres == [] then Ok([])
    else if geocode(theatres[0]) == [] then Err(NoGeocodingResult(theatres[0]))
    else
      match Locations(theatres[1..], geocode)
      case Err(e) =>
        var i :| 0 <= i < |theatres[1..]| && geocode(theatres[1..][i]) == []
          && (forall k :: 0 <= k < i ==> geocode(theatres[1..][k]) != []) && e == NoGeocodingResult(theatres[1..][i]);
        assert forall k :: 0 <= k < i + 1 ==> geocode(theatres[k]) != [] by {
          forall k | 0 <= k < i + 1 ensures geocode(theatres[k]) != [] {
            if k > 0 {
              assert theatres[k] == theatres[1..][k - 1];
            }
          }
        }
        Err(e)
      case Ok(rest) => Ok([Locate(theatres[0], geocode(theatres[0]))] + rest)
  }

  /** The queries the loop sends: the theatres in order, up to and including the first one
      the service finds nothing for. */
  function QueriesIssued(theatres: seq<string>, geocode: string -> seq<GeoPlace>): (q: seq<string>)
    ensures |q| <= |theatres| && q == theatres[..|q|]
    ensures (forall k :: 0 <= k < |theatres| ==> geocode(theatres[k]) != []) ==> q == theatres
  {
    if theatres == [] then []
    else if geocode(theatres[0]) == [] then [theatres[0]]
    else [theatres[0]] + QueriesIssued(theatres[1..], geocode)
  }

  /** A run that reaches a theatre without a result stops there. */
  lemma {:induction false} LookupStopsAt(theatres: seq<string>, geocode: string -> seq<GeoPlace>, i: nat)
    requires i < |theatres| && geocode(theatres[i]) == []
    requires forall k :: 0 <= k < i ==> geocode(theatres[k]) != []
    ensures Locations(theatres, geocode) == Err(NoGeocodingResult(theatres[i]))
    ensures QueriesIssued(theatres, geocode) == theatres[..i + 1]
  {
    if i > 0 {
      var rest := theatres[1..];
      assert rest[i - 1] == theatres[i];
      assert forall k :: 0 <= k < i - 1 ==> rest[k] == theatres[k + 1];
      LookupStopsAt(rest, geocode, i - 1);
      assert theatres[..i + 1] == [theatres[0]] + rest[..i];
    }
  }

  /** A run that finds every theatre collects their locations. */
  lemma LookupSucceeds(theatres: seq<string>, geocode: string -> seq<GeoPlace>, locations: seq<TheatreLocation>)
    requires |locations| == |theatres|
    requires forall k :: 0 <= k < |theatres| ==> (geocode(theatres[k]) != []
      && locations[k] == Locate(theatres[k], geocode(theatres[k])))
    ensures Locations(theatres, geocode) == Ok(locations)
    ensures QueriesIssued(theatres, geocode) == theatres
  {
    var r := Locations(theatres, geocode);
    assert r.Ok? && |r.value| == |locations|;
    assert forall k :: 0 <= k < |locations| ==> r.value[k] == locations[k];
    assert r.value == locations;
  }

  // ---------------------------------------------------------------------------------------
  // The left merge

  /** The locations whose key is `key`, in table order. */
  function Matches(locations: seq<TheatreLocation>, key: string): (m: seq<TheatreLocation>)
    ensures |m| <= |locations|
    ensures forall k :: 0 <= k < |m| ==> m[k] in locations && m[k].cinemaPlace == key
    ensures forall k :: 0 <= k < |locations| && locations[k].cinemaPlace == key ==> locations[k] in m
    ensures (exists k :: 0 <= k < |locations| && locations[k].cinemaPlace == key) <==> m != []
  {
    if locations == [] then []
    else
      var front := Matches(DropLast(locations), key);
      assert forall k :: 0 <= k < |locations| - 1 ==> DropLast(locations)[k] == locations[k];
      if Last(locations).cinemaPlace == key then front + [Last(locations)] else front
  }

  /** The matches keep the order of the location table: those of a concatenation are the
      matches of its first part followed by those of its second. */
  lemma {:induction false} MatchesAppend(xs: seq<TheatreLocation>, ys: seq<TheatreLocation>, key: string)
    ensures Matches(xs + ys, key) == Matches(xs, key) + Matches(ys, key)
  {
    if ys == [] {
      assert xs + ys == xs;
    } else {
      assert DropLast(xs + ys) == xs + DropLast(ys);
      assert Last(xs + ys) == Last(ys);
      MatchesAppend(xs, DropLast(ys), key);
    }
  }

  /** What the merge makes of one row: one row per matching location, or the row with
      missing coordinates when there is none. */
  function JoinRow(locations: seq<TheatreLocation>, r: ProgramRow): (e: seq<EnrichedRow>)
    ensures |e| >= 1 && forall k :: 0 <= k < |e| ==> e[k].row == r
  {
    var m := Matches(locations, r.cinemaPlace);
    if m == [] then [EnrichedRow(r, None, None)]
    else seq(|m|, k requires 0 <= k < |m| => EnrichedRow(r, Some(m[k].latitude), Some(m[k].longitude)))
  }

  /** `JoinRow` against a fixed location table, as a function of the row. */
  function Joiner(locations: seq<TheatreLocation>): ProgramRow -> seq<EnrichedRow>
  {
    r => JoinRow(locations, r)
  }

  /** `pd.merge(showtimes_df, theatre_locations_df, how="left")` on the shared column
      `cinema_place`: every row of the left table, in order, joined with its matches. */
  function LeftJoin(rows: seq<ProgramRow>, locations: seq<TheatreLocation>): (r: seq<EnrichedRow>)
    ensures |r| >= |rows|
  {
    ConcatMapNoShorter(rows, Joiner(locations));
    ConcatMap(rows, Joiner(locations))
  }

  /** The merge makes rows of the left table only. */
  lemma LeftJoinRows(rows: seq<ProgramRow>, locations: seq<TheatreLocation>)
    ensures forall k :: 0 <= k < |LeftJoin(rows, locations)| ==> LeftJoin(rows, locations)[k].row in rows
  {
    ConcatMapAll(rows, Joiner(locations), (e: EnrichedRow) => e.row in rows);
  }

  /** The merge keeps the order of the left table: that of a concatenation is the merge
      of its first part followed by the merge of its second. */
  lemma LeftJoinAppend(xs: seq<ProgramRow>, ys: seq<ProgramRow>, locations: seq<TheatreLocation>)
    ensures LeftJoin(xs + ys, locations) == LeftJoin(xs, locations) + LeftJoin(ys, locations)
  {
    ConcatMapAppend(xs, ys, Joiner(locations));
  }

  predicate UniqueKeys(locations: seq<TheatreLocation>)
  {
    forall i, j :: 0 <= i < j < |locations| ==> locations[i].cinemaPlace != locations[j].cinemaPlace
  }

  /** With one location per key a row matches at most one location. */
  lemma MatchesOfUniqueKeys(locations: seq<TheatreLocation>, key: string)
    requires UniqueKeys(locations)
    ensures |Matches(locations, key)| <= 1
    ensures forall k :: 0 <= k < |locations| && locations[k].cinemaPlace == key ==> Matches(locations, key) == [locations[k]]
  {
    if locations != [] {
      MatchesOfUniqueKeys(DropLast(locations), key);
      assert forall k :: 0 <= k < |locations| - 1 ==> DropLast(locations)[k] == locations[k];
      if Last(locations).cinemaPlace == key {
        assert Matches(DropLast(locations), key) == [];
      }
    }
  }

  /** Against a table with one location per key the merge keeps every row, in order, and
      gives it the coordinates of its key, or none when its key is not in the table. */
  lemma LeftJoinOfUniqueKeys(rows: seq<ProgramRow>, locations: seq<TheatreLocation>)
    requires UniqueKeys(locations)
    ensures |LeftJoin(rows, locations)| == |rows|
    ensures forall i :: 0 <= i < |rows| ==> LeftJoin(rows, locations)[i] == JoinedRow(locations, rows[i])
  {
    forall i | 0 <= i < |rows| ensures |Joiner(locations)(rows[i])| == 1 {
      JoinRowOfUniqueKeys(locations, rows[i]);
    }
    forall i | 0 <= i < |rows| ensures LeftJoin(rows, locations)[i] == JoinedRow(locations, rows[i]) {
      ConcatMapFullFilter(rows, Joiner(locations), i);
      JoinRowOfUniqueKeys(locations, rows[i]);
    }
    if rows != [] {
      ConcatMapFullFilter(rows, Joiner(locations), 0);
    }
  }

  /** The row the merge makes of `r` against a table with one location per key: the
      coordinates of its key, or none when its key is not in the table. */
  function JoinedRow(locations: seq<TheatreLocation>, r: ProgramRow): (e: EnrichedRow)
    requires UniqueKeys(locations)
    ensures e.row == r
    ensures forall k :: 0 <= k < |locations| && locations[k].cinemaPlace == r.cinemaPlace ==>
      e.latitude == Some(locations[k].latitude) && e.longitude == Some(locations[k].longitude)
    ensures (forall k :: 0 <= k < |locations| ==> locations[k].cinemaPlace != r.cinemaPlace) ==>
      e.latitude == None && e.longitude == None
  {
    MatchesOfUniqueKeys(locations, r.cinemaPlace);
    var m := Matches(locations, r.cinemaPlace);
    if m == [] then EnrichedRow(r, None, None) else EnrichedRow(r, Some(m[0].latitude), Some(m[0].longitude))
  }

  lemma JoinRowOfUniqueKeys(locations: seq<TheatreLocation>, r: ProgramRow)
    requires UniqueKeys(locations)
    ensures JoinRow(locations, r) == [JoinedRow(locations, r)]
  {
    MatchesOfUniqueKeys(locations, r.cinemaPlace);
  }

  // ---------------------------------------------------------------------------------------
  // The whole function

  /** The merged table, or the failure at the first theatre without a search result. */
  function Enrich(rows: seq<ProgramRow>, geocode: string -> seq<GeoPlace>): (r: Result<seq<EnrichedRow>, ScrapeError>)
    ensures r.Err? ==> r.error.NoGeocodingResult? && r.error.query in Theatres(rows) && geocode(r.error.query) == []
    ensures r.Ok? ==> forall k :: 0 <= k < |Theatres(rows)| ==> geocode(Theatres(rows)[k]) != []
    ensures r.Ok? ==> |r.value| >= |rows|
  {
    match Locations(Theatres(rows), geocode)
    case Err(e) => Err(e)
    case Ok(locations) => Ok(LeftJoin(rows, locations))
  }

  /** The loop over the distinct theatres: one query each, in order, keeping the first
      result's latitude and longitude, until a query finds nothing. */
  method LookUpTheatres(theatres: seq<string>, geocode: string -> seq<GeoPlace>)
    returns (r: Result<seq<TheatreLocation>, ScrapeError>, queries: seq<string>)
    ensures r == Locations(theatres, geocode)
    ensures queries == QueriesIssued(theatres, geocode)
  {
    var latitudes, longitudes := [], [];
    queries := [];
    var i := 0;
    while i < |theatres|
      invariant 0 <= i <= |theatres|
      invariant queries == theatres[..i]
      invariant |latitudes| == i && |longitudes| == i
      invariant forall k :: 0 <= k < i ==> (geocode(theatres[k]) != []
        && latitudes[k] == geocode(theatres[k])[0].lat && longitudes[k] == geocode(theatres[k])[0].lng)
    {
      var query := theatres[i];
      assert theatres[..i + 1] == theatres[..i] + [query];
      queries := queries + [query];
      var results := geocode(query);
      if results == [] {
        LookupStopsAt(theatres, geocode, i);
        return Err(NoGeocodingResult(query)), queries;
      }
      latitudes := latitudes + [results[0].lat];
      longitudes := longitudes + [results[0].lng];
      i := i + 1;
    }
    var locations := seq(|theatres|, k requires 0 <= k < |theatres| => TheatreLocation(theatres[k], latitudes[k], longitudes[k]));
    LookupSucceeds(theatres, geocode, locations);
    assert queries == theatres;
    r := Ok(locations);
  }

  /** The lookups over the distinct theatres, then the merge. The source writes the merged
      table to a CSV file; the model returns it, with the queries sent. */
  method GetTheatreCoordinates(rows: seq<ProgramRow>, geocode: string -> seq<GeoPlace>)
    returns (r: Result<seq<EnrichedRow>, ScrapeError>, queries: seq<string>)
    ensures r == Enrich(rows, geocode)
    ensures queries == QueriesIssued(Theatres(rows), geocode)
  {
    var locations;
    locations, queries := LookUpTheatres(Theatres(rows), geocode);
    if locations.Err? {
      return Err(locations.error), queries;
    }
    r := Ok(LeftJoin(rows, locations.value));
  }

  // ---------------------------------------------------------------------------------------
  // Properties

  /** The failure names the first theatre, in the order of first appearance, that the
      service finds nothing for; the run fails exactly when some row's theatre has no
      result. */
  lemma EnrichFailsIffTheatreUnknown(rows: seq<ProgramRow>, geocode: string -> seq<GeoPlace>)
    ensures Enrich(rows, geocode).Err? <==> exists i :: 0 <= i < |rows| && geocode(rows[i].cinemaPlace) == []
    ensures Enrich(rows, geocode).Err? ==> exists t :: (t in Theatres(rows) && geocode(t) == []
      && Enrich(rows, geocode).error == NoGeocodingResult(t))
  {
    var theatres := Theatres(rows);
    var keys := Map(rows, Key);
    if exists i :: 0 <= i < |rows| && geocode(rows[i].cinemaPlace) == [] {
      var i :| 0 <= i < |rows| && geocode(rows[i].cinemaPlace) == [];
      assert keys[i] in theatres;
    }
    if Locations(theatres, geocode).Err? {
      var j :| 0 <= j < |theatres| && geocode(theatres[j]) == [];
      assert theatres[j] in keys;
    }
  }

  /** On success the service was asked exactly once per distinct theatre, in the order of
      first appearance. */
  lemma OneQueryPerTheatre(rows: seq<ProgramRow>, geocode: string -> seq<GeoPlace>)
    requires Enrich(rows, geocode).Ok?
    ensures QueriesIssued(Theatres(rows), geocode) == Theatres(rows)
    ensures forall i :: 0 <= i < |rows| ==> rows[i].cinemaPlace in QueriesIssued(Theatres(rows), geocode)
    ensures forall i, j :: 0 <= i < j < |Theatres(rows)| ==> Theatres(rows)[i] != Theatres(rows)[j]
  {
    var keys := Map(rows, Key);
    assert forall i :: 0 <= i < |rows| ==> keys[i] == rows[i].cinemaPlace;
  }

  /** On success every row is kept, in order, and gets the coordinates of the first search
      result for its own theatre, so rows that share a theatre share coordinates. */
  lemma EnrichedRows(rows: seq<ProgramRow>, geocode: string -> seq<GeoPlace>)
    requires Enrich(rows, geocode).Ok?
    ensures |Enrich(rows, geocode).value| == |rows|
    ensures forall i :: 0 <= i < |rows| ==> (geocode(rows[i].cinemaPlace) != [] &&
      Enrich(rows, geocode).value[i]
        == EnrichedRow(rows[i], Some(geocode(rows[i].cinemaPlace)[0].lat), Some(geocode(rows[i].cinemaPlace)[0].lng)))
  {
    var theatres := Theatres(rows);
    var keys := Map(rows, Key);
    var locations := Locations(theatres, geocode).value;
    assert UniqueKeys(locations);
    LeftJoinOfUniqueKeys(rows, locations);
    forall i | 0 <= i < |rows|
      ensures geocode(rows[i].cinemaPlace) != []
      ensures JoinedRow(locations, rows[i])
           == EnrichedRow(rows[i], Some(geocode(rows[i].cinemaPlace)[0].lat), Some(geocode(rows[i].cinemaPlace)[0].lng))
    {
      assert keys[i] in theatres;
      var k :| 0 <= k < |theatres| && theatres[k] == rows[i].cinemaPlace;
      assert locations[k].cinemaPlace == rows[i].cinemaPlace;
    }
  }

  lemma SameTheatreSameCoordinates(rows: seq<ProgramRow>, geocode: string -> seq<GeoPlace>, i: nat, j: nat)
    requires Enrich(rows, geocode).Ok? && i < |rows| && j < |rows| && rows[i].cinemaPlace == rows[j].cinemaPlace
    ensures |Enrich(rows, geocode).value| == |rows|
    ensures Enrich(rows, geocode).value[i].latitude == Enrich(rows, geocode).value[j].latitude
    ensures Enrich(rows, geocode).value[i].longitude == Enrich(rows, geocode).value[j].longitude
  {
    EnrichedRows(rows, geocode);
  }
}
