/** The station points on the globe, from src/components/Globe/StationMarkers.tsx:
    which stations are visible (tag filter, then search filter), the
    position and colour buffers built for them, and the click handler's
    index guard. The projection onto the sphere is trigonometry and is
    passed in as a function. */
module StationMarkers {
  import opened JsBuiltins
  import opened Stations
  import StationList

  /** The tag filter: with a tag, keep the stations whose lowercased tags
      contain it as given (the tag itself is not lowercased). */
  predicate HasTag(s: Station, filterTag: string) {
    s.tags != "" && Contains(ToLower(s.tags), filterTag)
  }

  function TagStage(stations: seq<Station>, filterTag: string): (r: seq<Station>)
    ensures filterTag == "" ==> r == stations
    ensures filterTag != "" ==> forall k | 0 <= k < |r| :: HasTag(r[k], filterTag)
  {
    if filterTag == "" then stations
    else Filter(stations, TagTest(filterTag))
  }

  function TagTest(filterTag: string): Station -> bool {
    (s: Station) => HasTag(s, filterTag)
  }

  /** `visibleStations`. The selected country is one of the memo's inputs
      but takes no part in the result. */
  function VisibleStations(stations: seq<Station>, selectedCountry: Option<string>,
                           filterTag: string, searchTerm: string): (r: seq<Station>)
    ensures |r| <= |stations|
  {
    StationList.FilteredStations(TagStage(stations, filterTag), searchTerm)
  }

  /** Both stages together keep the stations passing both tests, in their
      original order. */
  predicate PassesBoth(s: Station, filterTag: string, searchTerm: string) {
    (filterTag == "" || HasTag(s, filterTag)) &&
    (searchTerm == "" || StationList.MatchesSearch(s, ToLower(searchTerm)))
  }

  function BothTest(filterTag: string, searchTerm: string): Station -> bool {
    (s: Station) => PassesBoth(s, filterTag, searchTerm)
  }

  lemma VisibleIsIntersection(stations: seq<Station>, selectedCountry: Option<string>,
                              filterTag: string, searchTerm: string)
    ensures VisibleStations(stations, selectedCountry, filterTag, searchTerm)
         == Filter(stations, BothTest(filterTag, searchTerm))
  {
    var both := BothTest(filterTag, searchTerm);
    var tag := TagTest(filterTag);
    var search := StationList.SearchTest(ToLower(searchTerm));
    if filterTag != "" && searchTerm != "" {
      FilterFilter(stations, tag, search, both);
    } else if filterTag != "" {
      FilterExt(stations, tag, both);
    } else if searchTerm != "" {
      FilterExt(stations, search, both);
    } else {
      FilterKeepsAll(stations, both);
    }
  }

  /** The selected country never changes which stations are visible. */
  lemma CountryIrrelevant(stations: seq<Station>, c1: Option<string>, c2: Option<string>,
                          filterTag: string, searchTerm: string, s: Station)
    ensures s in VisibleStations(stations, c1, filterTag, searchTerm) <==>
            s in VisibleStations(stations, c2, filterTag, searchTerm)
    ensures s in VisibleStations(stations, c1, filterTag, searchTerm) <==>
            s in stations && PassesBoth(s, filterTag, searchTerm)
  {
    VisibleIsIntersection(stations, c1, filterTag, searchTerm);
    FilterMembership(stations, BothTest(filterTag, searchTerm), s);
  }

  // ---------------------------------------------------------------------
  // Geometry

  datatype Vec3 = Vec3(x: real, y: real, z: real)

  /** `activeStation?.stationuuid === station.stationuuid`. */
  predicate IsActive(activeStation: Option<Station>, s: Station) {
    activeStation.Some? && activeStation.value.stationuuid == s.stationuuid
  }

  const ACTIVE_COLOR: seq<real> := [1.0, 0.6, 0.1]
  const IDLE_COLOR: seq<real> := [0.0, 0.9, 1.0]

  /** The first `n` position triples are the projected coordinates of the
      first `n` stations. */
  predicate PositionsFor(visible: seq<Station>, project: (real, real) -> Vec3, positions: seq<real>, n: nat)
    requires n <= |visible| && |positions| == 3 * n
  {
    forall i | 0 <= i < n ::
      var p := project(visible[i].geo_lat, visible[i].geo_long);
      positions[3 * i..3 * i + 3] == [p.x, p.y, p.z]
  }

  /** The first `n` colour triples mark the active station. */
  predicate ColorsFor(visible: seq<Station>, activeStation: Option<Station>, colors: seq<real>, n: nat)
    requires n <= |visible| && |colors| == 3 * n
  {
    forall i | 0 <= i < n ::
      colors[3 * i..3 * i + 3] == if IsActive(activeStation, visible[i]) then ACTIVE_COLOR else IDLE_COLOR
  }

  /** The `forEach` that pushes three coordinates and three colour
      components per visible station. */
  method BuildGeometry(visible: seq<Station>, activeStation: Option<Station>,
                       project: (real, real) -> Vec3)
    returns (positions: seq<real>, colors: seq<real>)
    ensures |positions| == 3 * |visible| && |colors| == 3 * |visible|
    ensures forall i | 0 <= i < |visible| ::
      var p := project(visible[i].geo_lat, visible[i].geo_long);
      positions[3 * i..3 * i + 3] == [p.x, p.y, p.z]
    ensures forall i | 0 <= i < |visible| ::
      colors[3 * i..3 * i + 3] == if IsActive(activeStation, visible[i]) then ACTIVE_COLOR else IDLE_COLOR
  {
    positions := [];
    colors := [];
    var n := 0;
    while n < |visible|
      invariant 0 <= n <= |visible|
      invariant |positions| == 3 * n && |colors| == 3 * n
      invariant PositionsFor(visible, project, positions, n)
      invariant ColorsFor(visible, activeStation, colors, n)
    {
      var station := visible[n];
      var pos := project(station.geo_lat, station.geo_long);
      var color := if IsActive(activeStation, station) then ACTIVE_COLOR else IDLE_COLOR;
      PositionsStep(visible, project, positions, n);
      ColorsStep(visible, activeStation, colors, n);
      positions := positions + [pos.x, pos.y, pos.z];
      colors := colors + color;
      n := n + 1;
    }
    assert PositionsFor(visible, project, positions, n);
    assert ColorsFor(visible, activeStation, colors, n);
  }

  lemma PositionsStep(visible: seq<Station>, project: (real, real) -> Vec3, positions: seq<real>, n: nat)
    requires n < |visible| && |positions| == 3 * n
    requires PositionsFor(visible, project, positions, n)
    ensures var p := project(visible[n].geo_lat, visible[n].geo_long);
      PositionsFor(visible, project, positions + [p.x, p.y, p.z], n + 1)
  {
    var p := project(visible[n].geo_lat, visible[n].geo_long);
    PushKeeps(positions, [p.x, p.y, p.z], n);
  }

  lemma ColorsStep(visible: seq<Station>, activeStation: Option<Station>, colors: seq<real>, n: nat)
    requires n < |visible| && |colors| == 3 * n
    requires ColorsFor(visible, activeStation, colors, n)
    ensures ColorsFor(visible, activeStation,
                      colors + (if IsActive(activeStation, visible[n]) then ACTIVE_COLOR else IDLE_COLOR), n + 1)
  {
    PushKeeps(colors, if IsActive(activeStation, visible[n]) then ACTIVE_COLOR else IDLE_COLOR, n);
  }

  /** Appending a triple leaves the earlier triples where they were. */
  lemma PushKeeps(buffer: seq<real>, triple: seq<real>, n: nat)
    requires |buffer| == 3 * n && |triple| == 3
    ensures forall i | 0 <= i < n :: (buffer + triple)[3 * i..3 * i + 3] == buffer[3 * i..3 * i + 3]
    ensures (buffer + triple)[3 * n..3 * n + 3] == triple
  {
  }

  /** `handleClick`: the picked point's index selects the station to play,
      and nothing is played for a missing or out-of-range index. */
  function ClickedStation(visible: seq<Station>, index: Option<int>): (r: Option<Station>)
    ensures r.Some? <==> index.Some? && 0 <= index.value < |visible|
    ensures r.Some? ==> r.value == visible[index.value]
  {
    if index.Some? && 0 <= index.value < |visible| then Some(visible[index.value]) else None
  }
}
