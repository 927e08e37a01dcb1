/** The client store of src/store/useRadioStore.ts: the station list, the
    station being played and the interface state, changed by one action at
    a time. The asynchronous request is split into the moment it starts and
    the moment it settles; `Math.random` is a draw passed in. */
module RadioStore {
  import opened JsBuiltins
  import opened Stations

  /** The store's fields as one value, so that an action can state its
      whole effect as an update of the state before it. */
  datatype StoreState = StoreState(
    stations: seq<Station>,
    loading: bool,
    activeStation: Option<Station>,
    isPlaying: bool,
    language: Lang,
    selectedCountry: Option<string>,
    hoveredCountry: Option<string>,
    hoveredStationName: Option<string>,
    isLiveCaptionOn: bool)

  /** The state the store is created with. */
  const INITIAL := StoreState([], false, None, false, Zh, None, None, None, false)

  class Store {
    var stations: seq<Station>
    var loading: bool
    var activeStation: Option<Station>
    var isPlaying: bool
    var language: Lang
    var selectedCountry: Option<string>
    var hoveredCountry: Option<string>
    var hoveredStationName: Option<string>
    var isLiveCaptionOn: bool

    function State(): (s: StoreState)
      reads this
      ensures s.stations == stations && s.activeStation == activeStation && s.isPlaying == isPlaying
      ensures s.selectedCountry == selectedCountry && s.loading == loading
    {
      StoreState(stations, loading, activeStation, isPlaying, language,
                 selectedCountry, hoveredCountry, hoveredStationName, isLiveCaptionOn)
    }

    /** No stations, nothing playing, Chinese interface, no country,
        captions off. */
    constructor ()
      ensures State() == INITIAL
    {
      stations := [];
      loading := false;
      activeStation := None;
      isPlaying := false;
      language := Zh;
      selectedCountry := None;
      hoveredCountry := None;
      hoveredStationName := None;
      isLiveCaptionOn := false;
    }

    method SetLanguage(lang: Lang)
      modifies this
      ensures State() == old(State()).(language := lang)
    {
      language := lang;
    }

    method SetSelectedCountry(country: Option<string>)
      modifies this
      ensures State() == old(State()).(selectedCountry := country)
    {
      selectedCountry := country;
    }

    method SetHoveredCountry(country: Option<string>)
      modifies this
      ensures State() == old(State()).(hoveredCountry := country)
    {
      hoveredCountry := country;
    }

    method SetHoveredStationName(name: Option<string>)
      modifies this
      ensures State() == old(State()).(hoveredStationName := name)
    {
      hoveredStationName := name;
    }

    /** Flips the caption switch, so two calls in a row restore it. */
    method ToggleLiveCaption()
      modifies this
      ensures State() == old(State()).(isLiveCaptionOn := !old(isLiveCaptionOn))
    {
      isLiveCaptionOn := !isLiveCaptionOn;
    }

    /** `fetchStations` as it starts: the store is loading. */
    method BeginFetch()
      modifies this
      ensures State() == old(State()).(loading := true)
    {
      loading := true;
    }

    /** `fetchStations` as it settles: `Some(list)` when the request
        resolved, `None` when it threw. Loading ends either way; the list is
        replaced only on success. */
    method CompleteFetch(result: Option<seq<Station>>)
      modifies this
      ensures !loading
      ensures result.Some? ==> State() == old(State()).(stations := result.value, loading := false)
      ensures result.None? ==> State() == old(State()).(loading := false)
    {
      if result.Some? {
        stations := result.value;
      }
      loading := false;
    }

    method PlayStation(station: Station)
      modifies this
      ensures State() == old(State()).(activeStation := Some(station), isPlaying := true)
    {
      activeStation := Some(station);
      isPlaying := true;
    }

    /** Plays the station at `floor(draw * |stations|)` and selects its
        country; an empty list leaves the store as it was. */
    method PlayRandomStation(draw: real)
      requires 0.0 <= draw < 1.0
      modifies this
      ensures old(stations) == [] ==> State() == old(State())
      ensures old(stations) != [] ==>
        exists k | 0 <= k < |stations| ::
          State() == old(State()).(activeStation := Some(stations[k]), isPlaying := true,
                                   selectedCountry := Some(stations[k].countrycode))
      ensures old(stations) != [] ==> activeStation == Some(stations[RandomIndex(draw, |stations|)])
    {
      if |stations| > 0 {
        var randomIndex := RandomIndex(draw, |stations|);
        var station := stations[randomIndex];
        activeStation := Some(station);
        isPlaying := true;
        selectedCountry := Some(station.countrycode);
      }
    }

    method StopStation()
      modifies this
      ensures State() == old(State()).(isPlaying := false)
    {
      isPlaying := false;
    }

    /** Flips `isPlaying`, so two calls in a row restore it. */
    method TogglePlay()
      modifies this
      ensures State() == old(State()).(isPlaying := !old(isPlaying))
    {
      isPlaying := !isPlaying;
    }
  }
}
