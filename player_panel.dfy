/** The decision rules of the player panel, src/components/UI/PlayerPanel.tsx:
    the weather icon for a WMO code, the time-of-day bucket of the
    station's local hour, the HH:MM clock, the temperature unit, the
    favourite heart and the volume fade-in after a station change. Audio,
    HLS, timers and the reading of the system clock are not modelled: the
    local hour and minute are inputs. */
module PlayerPanel {
  import opened JsBuiltins
  import opened Stations
  import WeatherOverlay

  // ---------------------------------------------------------------------
  // Weather icon

  datatype Icon = Sun | Cloud | CloudFog | CloudDrizzle | CloudSnow | CloudRain | CloudLightning | FallbackSun

  /** `getWeatherIconComponent`, first match wins. */
  function WeatherIcon(code: int): Icon {
    if code == 0 then Sun
    else if 1 <= code <= 3 then Cloud
    else if code == 45 || code == 48 then CloudFog
    else if 51 <= code <= 67 then CloudDrizzle
    else if 71 <= code <= 77 then CloudSnow
    else if 80 <= code <= 82 then CloudRain
    else if 85 <= code <= 86 then CloudSnow
    else if code >= 95 then CloudLightning
    else FallbackSun
  }

  /** The icon buckets: snow exactly for the snow codes the weather backdrop
      uses; among the backdrop's rain codes, 83, 84 and 87-94 have no icon
      bucket; and the fallback sun is used exactly for the codes no bucket
      names. */
  lemma IconBuckets(code: int)
    ensures WeatherIcon(code) == CloudSnow <==> WeatherOverlay.IsSnowCode(code)
    ensures WeatherOverlay.IsRainCode(code) && WeatherIcon(code) == FallbackSun <==>
            83 <= code <= 84 || 87 <= code <= 94
    ensures WeatherIcon(code) == FallbackSun <==>
      !(0 <= code <= 3 || code == 45 || code == 48 || 51 <= code <= 67 || 71 <= code <= 77 ||
        80 <= code <= 82 || 85 <= code <= 86 || code >= 95)
  {
  }

  // ---------------------------------------------------------------------
  // Time of day and clock

  /** `timeOfDay`: daytime when there is no weather report, otherwise the
      bucket of the station's local hour. */
  function TimeOfDay(hasWeather: bool, hour: int): (t: WeatherOverlay.TimeOfDay)
    requires hasWeather ==> 0 <= hour < 24
    ensures !hasWeather ==> t == WeatherOverlay.Day
    ensures hasWeather ==> (t == WeatherOverlay.Dawn <==> 5 <= hour <= 6)
    ensures hasWeather ==> (t == WeatherOverlay.Day <==> 7 <= hour <= 16)
    ensures hasWeather ==> (t == WeatherOverlay.Dusk <==> 17 <= hour <= 19)
    ensures hasWeather ==> (t == WeatherOverlay.Night <==> hour <= 4 || hour >= 20)
  {
    if !hasWeather then WeatherOverlay.Day
    else if hour >= 5 && hour < 7 then WeatherOverlay.Dawn
    else if hour >= 7 && hour < 17 then WeatherOverlay.Day
    else if hour >= 17 && hour < 20 then WeatherOverlay.Dusk
    else WeatherOverlay.Night
  }

  /** `n.toString().padStart(2, '0')` for a number below 100. */
  function TwoDigits(n: nat): (s: string)
    requires n < 100
    ensures s == [DigitChar(n / 10), DigitChar(n % 10)]
  {
    var digits := NatToString(n);
    if n < 10 then
      assert digits == [DigitChar(n)];
      PadStart(digits, 2, '0')
    else
      assert digits == NatToString(n / 10) + [DigitChar(n % 10)];
      assert NatToString(n / 10) == [DigitChar(n / 10)];
      PadStart(digits, 2, '0')
  }

  /** The local clock text `HH:MM`. */
  function ClockText(hours: nat, minutes: nat): (s: string)
    requires hours < 24 && minutes < 60
    ensures |s| == 5 && s[2] == ':'
    ensures forall k | 0 <= k < 5 && k != 2 :: '0' <= s[k] <= '9'
  {
    TwoDigits(hours) + ":" + TwoDigits(minutes)
  }

  /** The value of a two-digit text. */
  function DigitsValue(s: string): int
    requires |s| == 2
  {
    (s[0] as int - '0' as int) * 10 + (s[1] as int - '0' as int)
  }

  lemma TwoDigitsValue(n: nat)
    requires n < 100
    ensures DigitsValue(TwoDigits(n)) == n
  {
    var s := TwoDigits(n);
    assert s[0] as int - '0' as int == n / 10;
    assert s[1] as int - '0' as int == n % 10;
  }

  lemma ClockParts(hh: string, mm: string)
    requires |hh| == 2 && |mm| == 2
    ensures (hh + ":" + mm)[..2] == hh && (hh + ":" + mm)[3..] == mm
  {
  }

  /** Reading the clock text back gives the hour and the minute. */
  lemma ClockReadsBack(hours: nat, minutes: nat)
    requires hours < 24 && minutes < 60
    ensures DigitsValue(ClockText(hours, minutes)[..2]) == hours
    ensures DigitsValue(ClockText(hours, minutes)[3..]) == minutes
  {
    ClockParts(TwoDigits(hours), TwoDigits(minutes));
    TwoDigitsValue(hours);
    TwoDigitsValue(minutes);
  }

  // ---------------------------------------------------------------------
  // Temperature and favourites

  /** The countries shown in degrees Fahrenheit. */
  const FAHRENHEIT_COUNTRIES: seq<string> := ["US", "BS", "BZ", "KY", "PW"]

  datatype Unit = Celsius | Fahrenheit

  function TemperatureUnit(activeStation: Option<Station>): (u: Unit)
    ensures u == Fahrenheit <==> activeStation.Some? && activeStation.value.countrycode in FAHRENHEIT_COUNTRIES
  {
    if activeStation.Some? && activeStation.value.countrycode in FAHRENHEIT_COUNTRIES then Fahrenheit else Celsius
  }

  /** `Math.round`: the nearest integer, halves rounded up. */
  function Round(x: real): (n: int)
    ensures n as real - 0.5 <= x < n as real + 0.5
  {
    (x + 0.5).Floor
  }

  /** `Math.round(c * 9 / 5 + 32)`: within half a degree of the exact
      conversion. */
  function ToFahrenheit(celsius: real): (f: int)
    ensures f as real - 0.5 <= celsius * 9.0 / 5.0 + 32.0 < f as real + 0.5
  {
    Round(celsius * 9.0 / 5.0 + 32.0)
  }

  /** The heart is filled exactly when the playing station's UUID is among
      the favourites. */
  function IsFavorite(activeStation: Option<Station>, favorites: seq<string>): (filled: bool)
    ensures filled <==> exists i | 0 <= i < |favorites| :: activeStation.Some? && favorites[i] == activeStation.value.stationuuid
  {
    activeStation.Some? && activeStation.value.stationuuid in favorites
  }

  // ---------------------------------------------------------------------
  // Volume fade-in

  /** Volume step per tick and the cap, in hundredths. */
  const FADE_STEP := 5
  const FADE_CAP := 80

  /** The fade-in interval after a station change: starting from silence,
      each tick raises the volume by a step and sets it, until it reaches
      the cap, which is set and ends the fade. Returns the volumes set, one
      per tick. */
  method FadeIn() returns (volumes: seq<int>)
    ensures |volumes| == FADE_CAP / FADE_STEP
    ensures forall k | 0 <= k < |volumes| :: volumes[k] == FADE_STEP * (k + 1)
    ensures volumes[|volumes| - 1] == FADE_CAP
    ensures forall k | 0 <= k < |volumes| :: volumes[k] <= FADE_CAP
    ensures forall k | 0 <= k < |volumes| - 1 :: volumes[k] < FADE_CAP
  {
    var vol := 0;
    var running := true;
    volumes := [];
    while running
      invariant 0 <= vol <= FADE_CAP && vol % FADE_STEP == 0
      invariant |volumes| == vol / FADE_STEP
      invariant forall k | 0 <= k < |volumes| :: volumes[k] == FADE_STEP * (k + 1)
      invariant running <==> vol < FADE_CAP
      decreases FADE_CAP - vol
    {
      vol := vol + FADE_STEP;
      if vol >= FADE_CAP {
        vol := FADE_CAP;
        running := false;
      }
      volumes := volumes + [vol];
    }
  }
}
