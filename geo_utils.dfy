/** Coordinate refinement (src/utils/geoUtils.ts). A station keeps its own
    coordinates when they are usable; otherwise it is placed near the first
    Chinese place its name or state mentions, otherwise inside the central
    part of its country's bounding box. The random draws of the source come
    in as parameters. */
module GeoUtils {
  import opened JsBuiltins

  /** The JavaScript values a raw coordinate property of an untyped station
      can hold. */
  datatype JsValue = Undefined | Num(x: real) | NaN | Text(s: string)

  /** JavaScript truthiness of such a value. */
  predicate Truthy(v: JsValue) {
    match v
    case Undefined => false
    case Num(x) => x != 0.0
    case NaN => false
    case Text(s) => s != ""
  }

  /** The `a || b` operator. */
  function Or(a: JsValue, b: JsValue): JsValue {
    if Truthy(a) then a else b
  }

  /** The untyped station the function receives; a missing `name`, `state`,
      `countrycode` or `country` is the empty string, which is falsy too. */
  datatype RawStation = RawStation(
    name: string,
    state: string,
    countrycode: string,
    country: string,
    geoLat: JsValue,
    geo_lat: JsValue,
    geoLong: JsValue,
    geo_long: JsValue)

  datatype Place = Place(lat: real, long: real, radius: real)
  datatype Bounds = Bounds(minLat: real, maxLat: real, minLng: real, maxLng: real)
  /** A JavaScript number as the function returns it: finite, or `NaN`. */
  datatype Number = Finite(x: real) | NotANumber

  datatype Refined = Refined(lat: Number, long: Number, isEstimated: bool)

  /** The place table, in declaration order. */
  const CHINA_LOCATIONS: seq<(string, Place)> := [
    ("驻马店", Place(32.99, 114.02, 0.5)),
    ("河南", Place(33.88, 113.61, 2.0)),
    ("北京", Place(39.90, 116.40, 0.5)),
    ("上海", Place(31.23, 121.47, 0.3)),
    ("天津", Place(39.34, 117.36, 0.4)),
    ("重庆", Place(29.56, 106.55, 1.0)),
    ("河北", Place(38.03, 114.51, 2.0)),
    ("山西", Place(37.87, 112.54, 2.0)),
    ("辽宁", Place(41.80, 123.43, 2.0)),
    ("吉林", Place(43.81, 125.32, 2.0)),
    ("黑龙江", Place(45.74, 126.66, 2.5)),
    ("江苏", Place(32.06, 118.79, 1.5)),
    ("浙江", Place(30.27, 120.15, 1.5)),
    ("安徽", Place(31.82, 117.22, 1.5)),
    ("福建", Place(26.07, 119.29, 1.5)),
    ("江西", Place(28.68, 116.00, 1.5)),
    ("山东", Place(36.65, 117.12, 1.8)),
    ("湖北", Place(30.59, 114.30, 1.5)),
    ("湖南", Place(28.22, 112.93, 1.5)),
    ("广东", Place(23.12, 113.26, 1.5)),
    ("海南", Place(19.19, 109.74, 0.8)),
    ("四川", Place(30.57, 104.06, 2.5)),
    ("贵州", Place(26.64, 106.63, 1.5)),
    ("云南", Place(24.88, 102.83, 2.5)),
    ("陕西", Place(34.34, 108.93, 2.0)),
    ("甘肃", Place(36.06, 103.83, 2.5)),
    ("青海", Place(36.62, 101.77, 3.0)),
    ("内蒙古", Place(40.84, 111.75, 4.0)),
    ("广西", Place(23.11, 108.36, 1.5)),
    ("西藏", Place(29.65, 91.11, 4.0)),
    ("宁夏", Place(38.48, 106.23, 0.8)),
    ("新疆", Place(43.79, 87.62, 5.0)),
    ("香港", Place(22.31, 114.16, 0.1)),
    ("澳门", Place(22.19, 113.54, 0.05)),
    ("台北", Place(25.03, 121.56, 0.1)),
    ("台湾", Place(23.69, 120.96, 1.0))
  ]

  /** The bounding-box table, in declaration order. */
  const COUNTRY_BOUNDS: seq<(string, Bounds)> := [
    ("CN", Bounds(20.0, 50.0, 80.0, 130.0)),
    ("China", Bounds(20.0, 50.0, 80.0, 130.0)),
    ("US", Bounds(25.0, 49.0, -125.0, -70.0)),
    ("RU", Bounds(50.0, 70.0, 40.0, 180.0)),
    ("BR", Bounds(-30.0, 0.0, -70.0, -35.0)),
    ("IN", Bounds(8.0, 30.0, 70.0, 90.0)),
    ("AU", Bounds(-40.0, -11.0, 113.0, 153.0))
  ]

  function Abs(x: real): real {
    if x < 0.0 then -x else x
  }

  /** `typeof v === 'number'`: `NaN` is a number too. */
  predicate IsNumber(v: JsValue) {
    v.Num? || v.NaN?
  }

  /** `Math.abs(v) > 0.1`; false for `NaN`. */
  predicate AwayFromZero(v: JsValue) {
    v.Num? && Abs(v.x) > 0.1
  }

  /** Both raw values are numbers and one of them is away from zero. The
      other may be `NaN`, which is then returned as it is. */
  predicate UsableRaw(lat: JsValue, long: JsValue) {
    IsNumber(lat) && IsNumber(long) && (AwayFromZero(lat) || AwayFromZero(long))
  }

  /** The number a raw value that passed `typeof === 'number'` holds. */
  function AsNumber(v: JsValue): (n: Number)
    requires IsNumber(v)
    ensures n.Finite? <==> v.Num?
    ensures v.Num? ==> n.x == v.x
  {
    if v.Num? then Finite(v.x) else NotANumber
  }

  function RawLat(st: RawStation): JsValue {
    Or(st.geoLat, st.geo_lat)
  }

  function RawLong(st: RawStation): JsValue {
    Or(st.geoLong, st.geo_long)
  }

  /** The station's name or state contains the place key. */
  predicate Mentions(st: RawStation, key: string) {
    (st.name != "" && Contains(st.name, key)) || (st.state != "" && Contains(st.state, key))
  }

  /** Index of the first entry of `table`, from `from` on, whose key the
      station mentions. */
  function FirstMentioned(table: seq<(string, Place)>, st: RawStation, from: nat): (r: Option<nat>)
    requires from <= |table|
    ensures r.Some? ==> from <= r.value < |table| && Mentions(st, table[r.value].0)
    ensures r.Some? ==> forall j | from <= j < r.value :: !Mentions(st, table[j].0)
    ensures r.None? ==> forall j | from <= j < |table| :: !Mentions(st, table[j].0)
    decreases |table| - from
  {
    if from == |table| then None
    else if Mentions(st, table[from].0) then Some(from)
    else FirstMentioned(table, st, from + 1)
  }

  /** The place of the first entry of `table` the station mentions. */
  function InferredIn(table: seq<(string, Place)>, st: RawStation): Option<Place> {
    match FirstMentioned(table, st, 0)
    case None => None
    case Some(i) => Some(table[i].1)
  }

  /** The place keyword inference settles on, if any. */
  function InferredPlace(st: RawStation): Option<Place> {
    InferredIn(CHINA_LOCATIONS, st)
  }

  /** The keyword scan: walk the table in order and stop at the first key
      the station's name or state contains. */
  method FindPlace(table: seq<(string, Place)>, st: RawStation) returns (inferred: Option<Place>)
    ensures inferred == InferredIn(table, st)
  {
    inferred := None;
    var i := 0;
    while i < |table|
      invariant 0 <= i <= |table|
      invariant FirstMentioned(table, st, i) == FirstMentioned(table, st, 0)
      invariant inferred == None
    {
      var (key, place) := table[i];
      if Mentions(st, key) {
        inferred := Some(place);
        break;
      }
      i := i + 1;
    }
  }

  function CountryKey(st: RawStation): string {
    if st.countrycode != "" then st.countrycode else st.country
  }

  /** `COUNTRY_BOUNDS[key] || COUNTRY_BOUNDS["CN"]`. */
  function BoundsFor(key: string): Option<Bounds> {
    match Lookup(COUNTRY_BOUNDS, key)
    case Some(b) => Some(b)
    case None => Lookup(COUNTRY_BOUNDS, "CN")
  }

  /** One coordinate of the box fallback: the draw `d` placed in the range
      scaled by 0.6 about its centre. */
  function AxisPoint(lo: real, hi: real, d: real): real {
    var range := hi - lo;
    var center := lo + range / 2.0;
    var scaledHalf := (range * 0.6) / 2.0;
    (center - scaledHalf) + d * (range * 0.6)
  }

  /** The point `draw` selects in the box scaled by 0.6 about its centre. */
  function BoxPoint(b: Bounds, draw: (real, real)): Refined {
    Refined(Finite(AxisPoint(b.minLat, b.maxLat, draw.0)), Finite(AxisPoint(b.minLng, b.maxLng, draw.1)), true)
  }

  /** The jittered point around a place: `offset` is the polar draw
      `sqrt(u) * (cos a, sin a)`, scaled by the place's radius. */
  function Jitter(p: Place, offset: (real, real)): Refined {
    Refined(Finite(p.lat + p.radius * offset.0), Finite(p.long + p.radius * offset.1), true)
  }

  /** What `refineStationCoordinates` returns. `offset` is the polar jitter
      `sqrt(u) * (cos a, sin a)` before scaling by the place's radius, and
      `draw` the two uniform draws of the box fallback. */
  function Refine(st: RawStation, offset: (real, real), draw: (real, real)): Refined {
    var lat := RawLat(st);
    var long := RawLong(st);
    if UsableRaw(lat, long) then Refined(AsNumber(lat), AsNumber(long), false)
    else match InferredPlace(st)
      case Some(p) => Jitter(p, offset)
      case None =>
        match BoundsFor(CountryKey(st))
        case Some(b) => BoxPoint(b, draw)
        case None => Refined(Finite(35.0), Finite(105.0), false)
  }

  /** The source's procedure: early return on usable raw coordinates, a
      keyword scan that stops at the first hit, then the box fallback. */
  method RefineStationCoordinates(st: RawStation, offset: (real, real), draw: (real, real))
    returns (r: Refined)
    ensures r == Refine(st, offset, draw)
  {
    var lat := RawLat(st);
    var long := RawLong(st);
    if UsableRaw(lat, long) {
      return Refined(AsNumber(lat), AsNumber(long), false);
    }
    var inferred := FindPlace(CHINA_LOCATIONS, st);
    if inferred.Some? {
      return Jitter(inferred.value, offset);
    }
    var bounds := BoundsFor(CountryKey(st));
    if bounds.Some? {
      r := BoxPoint(bounds.value, draw);
    } else {
      r := Refined(Finite(35.0), Finite(105.0), false);
    }
  }

  /** Usable raw coordinates come back unchanged and are not estimates; the
      raw latitude is `geoLat` when truthy, else `geo_lat` (same for the
      longitude), and a `NaN` one stays `NaN`. */
  lemma RawCoordinatesKept(st: RawStation, offset: (real, real), draw: (real, real))
    requires UsableRaw(RawLat(st), RawLong(st))
    ensures var r := Refine(st, offset, draw);
      var lat := if Truthy(st.geoLat) then st.geoLat else st.geo_lat;
      var long := if Truthy(st.geoLong) then st.geoLong else st.geo_long;
      !r.isEstimated &&
      (r.lat.Finite? <==> lat.Num?) && (lat.Num? ==> r.lat.x == lat.x) &&
      (r.long.Finite? <==> long.Num?) && (long.Num? ==> r.long.x == long.x)
  {
  }

  /** A `NaN` latitude passes the number test when the longitude is away
      from zero, and comes back as `NaN`, not as an estimate. */
  lemma NaNLatitudeKept(st: RawStation, offset: (real, real), draw: (real, real))
    requires !Truthy(st.geoLat) && st.geo_lat.NaN?
    requires RawLong(st).Num? && Abs(RawLong(st).x) > 0.1
    ensures Refine(st, offset, draw) == Refined(NotANumber, Finite(RawLong(st).x), false)
  {
  }

  /** Only raw coordinates can produce `NaN`: every other branch returns
      finite numbers. */
  lemma NaNOnlyFromRaw(st: RawStation, offset: (real, real), draw: (real, real))
    ensures var r := Refine(st, offset, draw);
      (r.lat.NotANumber? ==> RawLat(st).NaN? && UsableRaw(RawLat(st), RawLong(st))) &&
      (r.long.NotANumber? ==> RawLong(st).NaN? && UsableRaw(RawLat(st), RawLong(st)))
  {
  }

  /** A station naming 驻马店 is placed there, whatever else it names (河南
      comes later in the table). */
  lemma ZhumadianBeforeHenan(st: RawStation)
    requires Contains(st.name, "驻马店")
    ensures InferredPlace(st) == Some(Place(32.99, 114.02, 0.5))
  {
    if st.name == "" {
      NotContainsLonger(st.name, "驻马店");
    }
    assert Mentions(st, CHINA_LOCATIONS[0].0);
  }

  /** A station naming 河南 but not 驻马店 is placed in 河南. */
  lemma HenanWithoutZhumadian(st: RawStation)
    requires !Mentions(st, "驻马店") && Contains(st.state, "河南")
    ensures InferredPlace(st) == Some(Place(33.88, 113.61, 2.0))
  {
    if st.state == "" {
      NotContainsLonger(st.state, "河南");
    }
    assert CHINA_LOCATIONS[0].0 == "驻马店";
    assert CHINA_LOCATIONS[1] == ("河南", Place(33.88, 113.61, 2.0));
    assert FirstMentioned(CHINA_LOCATIONS, st, 1) == Some(1);
  }

  lemma ScaledSquares(radius: real, dx: real, dy: real)
    requires dx * dx + dy * dy <= 1.0
    ensures (radius * dx) * (radius * dx) + (radius * dy) * (radius * dy) <= radius * radius
  {
    calc {
      (radius * dx) * (radius * dx) + (radius * dy) * (radius * dy);
    ==
      (radius * radius) * (dx * dx + dy * dy);
    <= { assert radius * radius >= 0.0; }
      radius * radius;
    }
  }

  /** The point is no farther from the place's centre than its radius
      (compared as squares). */
  predicate WithinRadius(r: Refined, p: Place) {
    r.lat.Finite? && r.long.Finite? &&
    (r.lat.x - p.lat) * (r.lat.x - p.lat) + (r.long.x - p.long) * (r.long.x - p.long) <= p.radius * p.radius
  }

  /** A jittered point lies within the place's radius of its centre. */
  lemma JitterWithinRadius(p: Place, offset: (real, real))
    requires offset.0 * offset.0 + offset.1 * offset.1 <= 1.0
    ensures Jitter(p, offset).isEstimated && WithinRadius(Jitter(p, offset), p)
  {
    ScaledSquares(p.radius, offset.0, offset.1);
  }

  /** An inferred point lies within the chosen place's radius of its centre
      and is marked as an estimate. */
  lemma InferredWithinRadius(st: RawStation, offset: (real, real), draw: (real, real))
    requires !UsableRaw(RawLat(st), RawLong(st)) && InferredPlace(st).Some?
    requires offset.0 * offset.0 + offset.1 * offset.1 <= 1.0
    ensures Refine(st, offset, draw).isEstimated
    ensures WithinRadius(Refine(st, offset, draw), InferredPlace(st).value)
  {
    var p := InferredPlace(st).value;
    assert Refine(st, offset, draw) == Jitter(p, offset);
    JitterWithinRadius(p, offset);
  }

  /** An unknown country key falls back to the CN box. */
  lemma UnknownCountryUsesChina(key: string)
    requires forall i | 0 <= i < |COUNTRY_BOUNDS| :: COUNTRY_BOUNDS[i].0 != key
    ensures BoundsFor(key) == Some(Bounds(20.0, 50.0, 80.0, 130.0))
  {
    assert COUNTRY_BOUNDS[0].0 == "CN";
  }

  /** Every key gets a box, so the (35, 105) branch is never taken. */
  lemma BoundsAlwaysFound(key: string)
    ensures BoundsFor(key).Some?
  {
    assert COUNTRY_BOUNDS[0].0 == "CN";
  }

  /** A result is an estimate exactly when the raw coordinates were not
      usable: the constant (35, 105) fallback, which is not an estimate, is
      unreachable. */
  lemma EstimatedUnlessRaw(st: RawStation, offset: (real, real), draw: (real, real))
    ensures Refine(st, offset, draw).isEstimated <==> !UsableRaw(RawLat(st), RawLong(st))
  {
    BoundsAlwaysFound(CountryKey(st));
  }

  predicate ProperBox(b: Bounds) {
    b.minLat < b.maxLat && b.minLng < b.maxLng
  }

  lemma TableBoxesProper(i: nat)
    requires i < |COUNTRY_BOUNDS|
    ensures ProperBox(COUNTRY_BOUNDS[i].1)
  {
  }

  lemma ScaledDraw(d: real, w: real)
    requires 0.0 <= d < 1.0 && w > 0.0
    ensures 0.0 <= d * w < w
  {
  }

  /** One axis of the box fallback stays in the middle 60% of its range:
      20% is cut off on either side. */
  lemma AxisPointCentral(lo: real, hi: real, d: real)
    requires lo < hi && 0.0 <= d < 1.0
    ensures lo + 0.2 * (hi - lo) <= AxisPoint(lo, hi, d) < hi - 0.2 * (hi - lo)
  {
    var range := hi - lo;
    var w := range * 0.6;
    ScaledDraw(d, w);
    assert AxisPoint(lo, hi, d) == (lo + 0.2 * range) + d * w;
  }

  /** The box point lies in the sub-rectangle that spans the middle 60% of
      each range. */
  lemma BoxPointCentral(b: Bounds, draw: (real, real))
    requires ProperBox(b)
    requires 0.0 <= draw.0 < 1.0 && 0.0 <= draw.1 < 1.0
    ensures var r := BoxPoint(b, draw);
      r.isEstimated && r.lat.Finite? && r.long.Finite? &&
      b.minLat + 0.2 * (b.maxLat - b.minLat) <= r.lat.x < b.maxLat - 0.2 * (b.maxLat - b.minLat) &&
      b.minLng + 0.2 * (b.maxLng - b.minLng) <= r.long.x < b.maxLng - 0.2 * (b.maxLng - b.minLng)
  {
    AxisPointCentral(b.minLat, b.maxLat, draw.0);
    AxisPointCentral(b.minLng, b.maxLng, draw.1);
  }

  /** With no usable raw coordinates and no place named, the point lies in
      the central 60% of the country's box (the CN box for unknown keys). */
  lemma FallbackCentral(st: RawStation, offset: (real, real), draw: (real, real))
    requires !UsableRaw(RawLat(st), RawLong(st)) && InferredPlace(st).None?
    requires 0.0 <= draw.0 < 1.0 && 0.0 <= draw.1 < 1.0
    ensures BoundsFor(CountryKey(st)).Some?
    ensures var r := Refine(st, offset, draw);
      var b := BoundsFor(CountryKey(st)).value;
      r.isEstimated && r.lat.Finite? && r.long.Finite? &&
      b.minLat + 0.2 * (b.maxLat - b.minLat) <= r.lat.x < b.maxLat - 0.2 * (b.maxLat - b.minLat) &&
      b.minLng + 0.2 * (b.maxLng - b.minLng) <= r.long.x < b.maxLng - 0.2 * (b.maxLng - b.minLng)
  {
    BoundsAlwaysFound(CountryKey(st));
    var b := BoundsFor(CountryKey(st)).value;
    assert exists i | 0 <= i < |COUNTRY_BOUNDS| :: COUNTRY_BOUNDS[i].1 == b;
    var i :| 0 <= i < |COUNTRY_BOUNDS| && COUNTRY_BOUNDS[i].1 == b;
    TableBoxesProper(i);
    BoxPointCentral(b, draw);
  }

  /** The closed box contains the point. */
  predicate InBox(b: Bounds, lat: real, lon: real) {
    lat >= b.minLat && lat <= b.maxLat && lon >= b.minLng && lon <= b.maxLng
  }

  /** Index of the first box from `from` on that contains the point. */
  function FirstBoxFrom(lat: real, lon: real, from: nat): (r: Option<nat>)
    requires from <= |COUNTRY_BOUNDS|
    ensures r.Some? ==> from <= r.value < |COUNTRY_BOUNDS| && InBox(COUNTRY_BOUNDS[r.value].1, lat, lon)
    ensures r.Some? ==> forall j | from <= j < r.value :: !InBox(COUNTRY_BOUNDS[j].1, lat, lon)
    ensures r.None? ==> forall j | from <= j < |COUNTRY_BOUNDS| :: !InBox(COUNTRY_BOUNDS[j].1, lat, lon)
    decreases |COUNTRY_BOUNDS| - from
  {
    if from == |COUNTRY_BOUNDS| then None
    else if InBox(COUNTRY_BOUNDS[from].1, lat, lon) then Some(from)
    else FirstBoxFrom(lat, lon, from + 1)
  }

  /** The code `findCountryByLatLon` is specified to return. */
  function CountryAt(lat: real, lon: real): Option<string> {
    match FirstBoxFrom(lat, lon, 0)
    case None => None
    case Some(i) => Some(COUNTRY_BOUNDS[i].0)
  }

  /** The source's scan with early return. */
  method FindCountryByLatLon(lat: real, lon: real) returns (code: Option<string>)
    ensures code == CountryAt(lat, lon)
  {
    var i := 0;
    while i < |COUNTRY_BOUNDS|
      invariant 0 <= i <= |COUNTRY_BOUNDS|
      invariant FirstBoxFrom(lat, lon, i) == FirstBoxFrom(lat, lon, 0)
    {
      var (key, bounds) := COUNTRY_BOUNDS[i];
      if InBox(bounds, lat, lon) {
        return Some(key);
      }
      i := i + 1;
    }
    return None;
  }

  /** A returned code names a box containing the point, and no box is
      missed: `None` means no box contains it. */
  lemma CountryAtSound(lat: real, lon: real)
    ensures CountryAt(lat, lon).Some? ==>
      exists i | 0 <= i < |COUNTRY_BOUNDS| ::
        COUNTRY_BOUNDS[i].0 == CountryAt(lat, lon).value && InBox(COUNTRY_BOUNDS[i].1, lat, lon)
    ensures CountryAt(lat, lon).None? <==>
      forall i | 0 <= i < |COUNTRY_BOUNDS| :: !InBox(COUNTRY_BOUNDS[i].1, lat, lon)
  {
    match FirstBoxFrom(lat, lon, 0)
    case None =>
    case Some(i) =>
  }

  /** "China" is never returned: "CN" comes first with the same box. */
  lemma NeverChina(lat: real, lon: real)
    ensures CountryAt(lat, lon) != Some("China")
  {
    match FirstBoxFrom(lat, lon, 0)
    case None =>
    case Some(i) =>
      assert COUNTRY_BOUNDS[0].1 == COUNTRY_BOUNDS[1].1;
      assert i != 1;
  }
}
