/** The station record the client works with (src/types/radio.ts). Coordinates
    are reals; the JSON numbers behind them are not modelled bit for bit. */
module Stations {
  /** The two interface languages. */
  datatype Lang = Zh | En

  datatype Station = Station(
    stationuuid: string,
    name: string,
    url: string,
    url_resolved: string,
    homepage: string,
    favicon: string,
    tags: string,
    country: string,
    countrycode: string,
    state: string,
    language: string,
    votes: int,
    clickcount: int,
    geo_lat: real,
    geo_long: real)
}
