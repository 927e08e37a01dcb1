/** The station list panel of src/components/UI/StationList.tsx: the
    search filter over name, tags and country, the first hundred results
    shown, the count in the header and the two-tag summary under each
    entry. Rendering is not modelled. */
module StationList {
  import opened JsBuiltins
  import opened Stations

  /** The station search predicate for an already lowercased term: the
      lowercased name, tags or country contains it. The same predicate
      filters the markers on the globe. */
  predicate MatchesSearch(s: Station, lowerTerm: string) {
    Contains(ToLower(s.name), lowerTerm) ||
    (s.tags != "" && Contains(ToLower(s.tags), lowerTerm)) ||
    (s.country != "" && Contains(ToLower(s.country), lowerTerm))
  }

  /** `filteredStations`: all stations for an empty term, otherwise the
      stations matching the lowercased term, in their order. */
  function FilteredStations(stations: seq<Station>, searchTerm: string): (r: seq<Station>)
    ensures searchTerm == "" ==> r == stations
    ensures |r| <= |stations|
    ensures searchTerm != "" ==> forall k | 0 <= k < |r| :: MatchesSearch(r[k], ToLower(searchTerm))
  {
    if searchTerm == "" then stations
    else Filter(stations, SearchTest(ToLower(searchTerm)))
  }

  function SearchTest(lowerTerm: string): Station -> bool {
    (s: Station) => MatchesSearch(s, lowerTerm)
  }

  /** A station is listed exactly when it is one of the stations and the
      term is empty or matches it; the list keeps the stations' order. */
  lemma FilteredMeaning(stations: seq<Station>, searchTerm: string, s: Station)
    ensures s in FilteredStations(stations, searchTerm) <==>
      s in stations && (searchTerm == "" || MatchesSearch(s, ToLower(searchTerm)))
    ensures IsSubsequence(FilteredStations(stations, searchTerm), stations)
  {
    if searchTerm == "" {
      IsSubsequenceRefl(stations);
    } else {
      var p := SearchTest(ToLower(searchTerm));
      FilterMembership(stations, p, s);
      FilterIsSubsequence(stations, p);
    }
  }

  lemma {:induction false} IsSubsequenceRefl<T>(xs: seq<T>)
    ensures IsSubsequence(xs, xs)
    decreases |xs|
  {
    if xs != [] {
      IsSubsequenceRefl(xs[1..]);
    }
  }

  /** Number of entries the list renders. */
  const DISPLAY_LIMIT := 100

  /** `displayStations`: the first hundred filtered stations. */
  function DisplayStations(stations: seq<Station>, searchTerm: string): (r: seq<Station>)
    ensures var f := FilteredStations(stations, searchTerm);
      |r| == (if |f| < DISPLAY_LIMIT then |f| else DISPLAY_LIMIT) && r == f[..|r|]
  {
    Take(FilteredStations(stations, searchTerm), DISPLAY_LIMIT)
  }

  /** The number in the header counts every filtered station, including
      those beyond the first hundred that are not rendered. */
  function HeaderCount(stations: seq<Station>, searchTerm: string): (n: nat)
    ensures n >= |DisplayStations(stations, searchTerm)|
    ensures n > DISPLAY_LIMIT ==> n > |DisplayStations(stations, searchTerm)|
    ensures n <= DISPLAY_LIMIT ==> n == |DisplayStations(stations, searchTerm)|
  {
    |FilteredStations(stations, searchTerm)|
  }

  /** `tags.split(',').slice(0, 2).join(', ')`. */
  function TagSummary(tags: string): (r: string)
    ensures ',' !in tags ==> r == tags
  {
    Join(Take(Split(tags, ','), 2), ", ")
  }

  /** The summary is the text before the first comma, then ", ", then the
      text up to the second comma. */
  lemma TagSummaryParts(tags: string)
    requires ',' in tags
    ensures var i := FirstIndexOfChar(tags, ',');
      TagSummary(tags) == tags[..i] + ", " + Split(tags[i + 1..], ',')[0]
  {
    var i := FirstIndexOfChar(tags, ',');
    var rest := Split(tags[i + 1..], ',');
    var parts := Split(tags, ',');
    assert parts == [tags[..i]] + rest;
    assert Take(parts, 2) == [tags[..i], rest[0]];
    assert [tags[..i]] + [rest[0]] == [tags[..i], rest[0]];
    JoinCons(tags[..i], [rest[0]], ", ");
  }

  /** The summary holds a comma exactly when the tags do, and then just the
      one of its ", " separator. */
  lemma TagSummaryCommas(tags: string)
    ensures CountChar(TagSummary(tags), ',') == if ',' in tags then 1 else 0
  {
    if ',' in tags {
      var i := FirstIndexOfChar(tags, ',');
      var second := Split(tags[i + 1..], ',')[0];
      TagSummaryParts(tags);
      CountCharAbsent(tags[..i], ',');
      CountCharAbsent(second, ',');
      CountCharAppend(tags[..i] + ", ", second, ',');
      CountCharAppend(tags[..i], ", ", ',');
    } else {
      CountCharAbsent(tags, ',');
    }
  }
}
