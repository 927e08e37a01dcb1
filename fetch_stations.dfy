/** The cleaning step of scripts/fetchStations.js: every API station is
    mapped to the stored record, with coordinates taken from a small
    correction table when the station's name is listed there, and then the
    stations without a stream, without a name or at exactly (0, 0) are
    dropped. The API request and the file write are not modelled. */
module FetchStations {
  import opened JsBuiltins

  /** The fields of an API station the script reads. A coordinate that is
      null or missing is `None`. */
  datatype ApiStation = ApiStation(
    id: string,
    name: string,
    url: string,
    urlResolved: string,
    homepage: string,
    favicon: string,
    tags: seq<string>,
    country: string,
    countryCode: string,
    state: string,
    clickCount: int,
    votes: int,
    geoLat: Option<real>,
    geoLong: Option<real>)

  /** The record written for a station. */
  datatype CleanStation = CleanStation(
    stationuuid: string,
    name: string,
    url: string,
    url_resolved: string,
    homepage: string,
    favicon: string,
    tags: string,
    country: string,
    countrycode: string,
    state: string,
    clickcount: int,
    votes: int,
    geo_lat: real,
    geo_long: real)

  datatype Point = Point(lat: real, long: real)

  /** `STATION_CORRECTIONS`, in declaration order. */
  const STATION_CORRECTIONS: seq<(string, Point)> := [
    ("BRTV北京音乐广播", Point(39.9042, 116.4074)),
    ("Beijing Music Radio", Point(39.9042, 116.4074))
  ]

  /** `table[name] || table[name.trim()]`: the exact name is tried first,
      the trimmed name only when the exact one is not listed. */
  function FindCorrection(table: seq<(string, Point)>, name: string): (r: Option<Point>)
    ensures Lookup(table, name).Some? ==> r == Lookup(table, name)
    ensures Lookup(table, name).None? ==> r == Lookup(table, Trim(name))
    ensures r.Some? ==> exists i | 0 <= i < |table| :: table[i].1 == r.value
  {
    match Lookup(table, name)
    case Some(p) => Some(p)
    case None => Lookup(table, Trim(name))
  }

  /** `s.geoLat || 0`: a missing coordinate (or a zero) becomes 0. */
  function OrZero(v: Option<real>): (x: real)
    ensures v.None? ==> x == 0.0
    ensures v.Some? ==> x == v.value
  {
    if v.Some? then v.value else 0.0
  }

  /** The `stations.map` callback, for a given correction table. */
  function CleanWith(table: seq<(string, Point)>, s: ApiStation): (r: CleanStation)
    ensures r.name == Trim(s.name)
    ensures r.tags == Join(s.tags, ",")
    ensures r.stationuuid == s.id && r.url == s.url && r.url_resolved == s.urlResolved
  {
    var correction := FindCorrection(table, s.name);
    var lat := if correction.Some? then correction.value.lat else OrZero(s.geoLat);
    var long := if correction.Some? then correction.value.long else OrZero(s.geoLong);
    CleanStation(s.id, Trim(s.name), s.url, s.urlResolved, s.homepage, s.favicon,
                 Join(s.tags, ","), s.country, s.countryCode, s.state,
                 s.clickCount, s.votes, lat, long)
  }

  function Clean(s: ApiStation): CleanStation {
    CleanWith(STATION_CORRECTIONS, s)
  }

  /** The `validStations` predicate. */
  predicate Valid(s: CleanStation) {
    s.url_resolved != "" && s.name != "" && !(s.geo_lat == 0.0 && s.geo_long == 0.0)
  }

  /** `cleanStations`: one record per API station, in order. */
  function CleanStations(stations: seq<ApiStation>): (r: seq<CleanStation>)
    ensures |r| == |stations|
    ensures forall k | 0 <= k < |r| :: r[k] == Clean(stations[k])
  {
    seq(|stations|, k requires 0 <= k < |stations| => Clean(stations[k]))
  }

  /** `validStations`. */
  function ValidStations(stations: seq<ApiStation>): (r: seq<CleanStation>)
    ensures forall k | 0 <= k < |r| ::
      r[k].url_resolved != "" && r[k].name != "" && !(r[k].geo_lat == 0.0 && r[k].geo_long == 0.0)
  {
    Filter(CleanStations(stations), Valid)
  }

  // ---------------------------------------------------------------------
  // Properties

  /** With a correction, the coordinates are the correction's, whatever the
      API reported. */
  lemma CorrectionWins(table: seq<(string, Point)>, s: ApiStation, lat: Option<real>, long: Option<real>)
    requires FindCorrection(table, s.name).Some?
    ensures CleanWith(table, s.(geoLat := lat, geoLong := long)) == CleanWith(table, s)
    ensures CleanWith(table, s).geo_lat == FindCorrection(table, s.name).value.lat
    ensures CleanWith(table, s).geo_long == FindCorrection(table, s.name).value.long
  {
  }

  /** Without a correction, the API coordinates are used, a missing one
      counting as 0. */
  lemma NoCorrectionUsesApi(table: seq<(string, Point)>, s: ApiStation)
    requires FindCorrection(table, s.name).None?
    ensures CleanWith(table, s).geo_lat == OrZero(s.geoLat)
    ensures CleanWith(table, s).geo_long == OrZero(s.geoLong)
    ensures s.geoLat.None? && s.geoLong.None? ==> !Valid(CleanWith(table, s))
  {
  }

  /** Every correction in the table is away from (0, 0). */
  lemma CorrectionsOffNullIsland(p: Point)
    requires exists i | 0 <= i < |STATION_CORRECTIONS| :: STATION_CORRECTIONS[i].1 == p
    ensures !(p.lat == 0.0 && p.long == 0.0)
  {
    var i :| 0 <= i < |STATION_CORRECTIONS| && STATION_CORRECTIONS[i].1 == p;
    assert i == 0 || i == 1;
  }

  /** A corrected station is never dropped by the (0, 0) test: it is kept
      exactly when it has a stream URL and a non-blank name. */
  lemma CorrectedKept(stations: seq<ApiStation>, s: ApiStation)
    requires s in stations
    requires FindCorrection(STATION_CORRECTIONS, s.name).Some?
    ensures Clean(s) in ValidStations(stations) <==> s.urlResolved != "" && Trim(s.name) != ""
  {
    CorrectionsOffNullIsland(FindCorrection(STATION_CORRECTIONS, s.name).value);
    var k :| 0 <= k < |stations| && stations[k] == s;
    assert CleanStations(stations)[k] == Clean(s);
    FilterMembership(CleanStations(stations), Valid, Clean(s));
  }

  /** The kept stations are the mapped ones with some deleted, in their
      original order, and a mapped station is kept exactly when it is
      valid. */
  lemma KeptInOrder(stations: seq<ApiStation>, c: CleanStation)
    ensures IsSubsequence(ValidStations(stations), CleanStations(stations))
    ensures c in ValidStations(stations) <==> c in CleanStations(stations) && Valid(c)
  {
    FilterIsSubsequence(CleanStations(stations), Valid);
    FilterMembership(CleanStations(stations), Valid, c);
  }
}
