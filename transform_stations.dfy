/** The merge of scripts/transformStations.js: the metadata of the current
    station list (votes, country code, favicon, homepage) is collected into
    a map keyed by station UUID, and every station of the new list is
    rewritten into the stored shape with the metadata found under its UUID,
    or default metadata. Reading and writing the JSON files is not
    modelled: a missing current file is the empty list. */
module TransformStations {
  import opened JsBuiltins

  /** A record of the current list; a missing field is `None`. */
  datatype CurrentStation = CurrentStation(
    stationuuid: string,
    votes: Option<int>,
    countrycode: Option<string>,
    favicon: Option<string>,
    homepage: Option<string>)

  datatype Metadata = Metadata(votes: int, countrycode: string, favicon: string, homepage: string)

  /** The metadata a station gets when the current list does not know it. */
  const DEFAULT_METADATA := Metadata(0, "", "", "")

  /** A coordinate of the new list, which holds numbers or numeric text. */
  datatype Coordinate = Number(x: real) | Text(t: string)

  /** A record of the new list. */
  datatype NewStation = NewStation(
    UUID: string,
    Name: string,
    URL: string,
    Country: string,
    latitude: Coordinate,
    longitude: Coordinate,
    Tags: Option<string>)

  /** A record written by the merge. */
  datatype MergedStation = MergedStation(
    stationuuid: string,
    name: string,
    url: string,
    url_resolved: string,
    homepage: string,
    favicon: string,
    country: string,
    countrycode: string,
    geo_lat: real,
    geo_long: real,
    tags: string,
    votes: int,
    is_geo_estimated: bool)

  /** `x || 0` for a count. */
  function CountOrZero(v: Option<int>): (n: int)
    ensures v.None? || v.value == 0 ==> n == 0
    ensures v.Some? ==> n == v.value
  {
    if v.Some? then v.value else 0
  }

  /** `x || ""` for a text field. */
  function TextOrEmpty(v: Option<string>): (t: string)
    ensures v.None? ==> t == ""
    ensures v.Some? ==> t == v.value
  {
    if v.Some? then v.value else ""
  }

  /** The value stored for one current record. */
  function MetadataOf(s: CurrentStation): (m: Metadata)
    ensures s.votes.None? ==> m.votes == 0
    ensures s.countrycode.None? ==> m.countrycode == ""
    ensures s.favicon.None? ==> m.favicon == ""
    ensures s.homepage.None? ==> m.homepage == ""
  {
    Metadata(CountOrZero(s.votes), TextOrEmpty(s.countrycode),
             TextOrEmpty(s.favicon), TextOrEmpty(s.homepage))
  }

  /** The map after `set` has been called for every record in order. */
  function MetadataMap(current: seq<CurrentStation>): map<string, Metadata>
    decreases |current|
  {
    if current == [] then map[]
    else
      var last := current[|current| - 1];
      MetadataMap(current[..|current| - 1])[last.stationuuid := MetadataOf(last)]
  }

  /** `currentStationMap`, filled by `forEach` with `Map.set`. */
  method BuildMetadataMap(current: seq<CurrentStation>) returns (m: map<string, Metadata>)
    ensures m == MetadataMap(current)
  {
    m := map[];
    var i := 0;
    while i < |current|
      invariant 0 <= i <= |current|
      invariant m == MetadataMap(current[..i])
    {
      assert current[..i + 1][..i] == current[..i];
      m := m[current[i].stationuuid := MetadataOf(current[i])];
      i := i + 1;
    }
    assert current[..i] == current;
  }

  /** The map knows exactly the UUIDs of the current list. */
  lemma {:induction false} MetadataMapKeys(current: seq<CurrentStation>, key: string)
    ensures key in MetadataMap(current) <==> exists k | 0 <= k < |current| :: current[k].stationuuid == key
    decreases |current|
  {
    if current != [] {
      var init := current[..|current| - 1];
      MetadataMapKeys(init, key);
      assert forall k | 0 <= k < |init| :: init[k] == current[k];
    }
  }

  /** A later record with the same UUID overwrites an earlier one: the map
      holds the metadata of the last record with each UUID. */
  lemma {:induction false} MetadataMapLastWins(current: seq<CurrentStation>, k: nat)
    requires k < |current|
    requires forall j | k < j < |current| :: current[j].stationuuid != current[k].stationuuid
    ensures current[k].stationuuid in MetadataMap(current)
    ensures MetadataMap(current)[current[k].stationuuid] == MetadataOf(current[k])
    decreases |current|
  {
    if k < |current| - 1 {
      var init := current[..|current| - 1];
      assert init[k] == current[k];
      assert forall j | k < j < |init| :: init[j] == current[j];
      MetadataMapLastWins(init, k);
    }
  }

  /** `typeof c === 'string' ? parseFloat(c) : c`, with `parseFloat` given. */
  function CoordinateValue(c: Coordinate, parseFloat: string -> real): (x: real)
    ensures c.Number? ==> x == c.x
    ensures c.Text? ==> x == parseFloat(c.t)
  {
    match c
    case Number(x) => x
    case Text(t) => parseFloat(t)
  }

  /** `currentStationMap.get(UUID) || default` (a stored record is always
      truthy). */
  function MetadataFor(m: map<string, Metadata>, uuid: string): (r: Metadata)
    ensures uuid in m ==> r == m[uuid]
    ensures uuid !in m ==> r == DEFAULT_METADATA
  {
    if uuid in m then m[uuid] else DEFAULT_METADATA
  }

  /** The `newStations.map` callback. */
  function MergeOne(m: map<string, Metadata>, s: NewStation, parseFloat: string -> real): (r: MergedStation)
    ensures r.stationuuid == s.UUID && r.name == s.Name && r.country == s.Country
    ensures r.url == s.URL && r.url_resolved == r.url
    ensures !r.is_geo_estimated
    ensures r.tags == if s.Tags.Some? then ToLower(s.Tags.value) else ""
    ensures Metadata(r.votes, r.countrycode, r.favicon, r.homepage) == MetadataFor(m, s.UUID)
  {
    var metadata := MetadataFor(m, s.UUID);
    MergedStation(
      s.UUID, s.Name, s.URL, s.URL, metadata.homepage, metadata.favicon, s.Country,
      metadata.countrycode,
      CoordinateValue(s.latitude, parseFloat), CoordinateValue(s.longitude, parseFloat),
      if s.Tags.Some? && s.Tags.value != "" then ToLower(s.Tags.value) else "",
      metadata.votes, false)
  }

  /** `mappedStations`: one merged record per new station, in order. */
  function Merge(m: map<string, Metadata>, newStations: seq<NewStation>, parseFloat: string -> real): (r: seq<MergedStation>)
    ensures |r| == |newStations|
    ensures forall i | 0 <= i < |r| :: r[i] == MergeOne(m, newStations[i], parseFloat)
  {
    seq(|newStations|, i requires 0 <= i < |newStations| => MergeOne(m, newStations[i], parseFloat))
  }

  /** The whole transformation: build the map, then merge. */
  method Transform(current: seq<CurrentStation>, newStations: seq<NewStation>, parseFloat: string -> real)
    returns (merged: seq<MergedStation>)
    ensures merged == Merge(MetadataMap(current), newStations, parseFloat)
  {
    var m := BuildMetadataMap(current);
    merged := Merge(m, newStations, parseFloat);
  }

  // ---------------------------------------------------------------------
  // Properties

  /** The merged station at position `i` keeps the new station's UUID, and
      takes the metadata of the last current record with that UUID, or the
      default metadata when there is none. */
  lemma MergedMetadata(current: seq<CurrentStation>, newStations: seq<NewStation>,
                       parseFloat: string -> real, i: nat)
    requires i < |newStations|
    ensures var r := Merge(MetadataMap(current), newStations, parseFloat)[i];
      r.stationuuid == newStations[i].UUID &&
      ((forall k | 0 <= k < |current| :: current[k].stationuuid != newStations[i].UUID) ==>
         Metadata(r.votes, r.countrycode, r.favicon, r.homepage) == DEFAULT_METADATA) &&
      (forall k | 0 <= k < |current| && current[k].stationuuid == newStations[i].UUID &&
                  (forall j | k < j < |current| :: current[j].stationuuid != newStations[i].UUID) ::
         Metadata(r.votes, r.countrycode, r.favicon, r.homepage) == MetadataOf(current[k]))
  {
    MetadataMapKeys(current, newStations[i].UUID);
    forall k | 0 <= k < |current| && current[k].stationuuid == newStations[i].UUID &&
               (forall j | k < j < |current| :: current[j].stationuuid != newStations[i].UUID)
      ensures MetadataMap(current)[newStations[i].UUID] == MetadataOf(current[k])
    {
      MetadataMapLastWins(current, k);
    }
  }

  /** Without a current list every merged station carries the defaults. */
  lemma NoCurrentListDefaults(newStations: seq<NewStation>, parseFloat: string -> real)
    ensures forall r | r in Merge(MetadataMap([]), newStations, parseFloat) ::
      r.votes == 0 && r.countrycode == "" && r.favicon == "" && r.homepage == ""
  {
  }
}
