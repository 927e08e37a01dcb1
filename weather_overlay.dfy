/** The weather backdrop of src/components/Effects/WeatherOverlay.tsx: how a
    WMO weather code and the time of day choose the background gradient,
    the tint laid over it, the particle engine's kind and rain intensity,
    the decorative layers and the opacity of the readability overlay. The
    particle simulation, the canvas and the CSS are not modelled. */
module WeatherOverlay {

  datatype TimeOfDay = Dawn | Day | Dusk | Night

  /** WMO codes for drizzle, rain, rain showers and thunderstorms, as the
      component groups them (51-67 and 80-99). */
  predicate IsRainCode(code: int) {
    (51 <= code <= 67) || (80 <= code <= 99)
  }

  /** WMO codes for snow fall and snow showers (71-77 and 85-86). */
  predicate IsSnowCode(code: int) {
    (71 <= code <= 77) || (85 <= code <= 86)
  }

  // ---------------------------------------------------------------------
  // Background gradient

  datatype Background = Overcast | Foggy | Rainy | Snowy | DawnSky | DuskSky | NightSky | ClearDay

  /** `bgClass`: the weather gradients are tried first, then the time of
      day, and the clear day sky is the default. */
  function BgClass(code: int, timeOfDay: TimeOfDay): Background {
    if code == 3 then Overcast
    else if code == 45 || code == 48 then Foggy
    else if IsRainCode(code) then Rainy
    else if IsSnowCode(code) then Snowy
    else if timeOfDay == Dawn then DawnSky
    else if timeOfDay == Dusk then DuskSky
    else if timeOfDay == Night then NightSky
    else ClearDay
  }

  /** The sky for a time of day when the weather has no gradient of its own. */
  function TimeSky(timeOfDay: TimeOfDay): Background {
    match timeOfDay
    case Dawn => DawnSky
    case Day => ClearDay
    case Dusk => DuskSky
    case Night => NightSky
  }

  /** Weather takes precedence over the time of day: for overcast, fog,
      rain and snow codes the background does not depend on the time;
      for every other code it is the time's sky. */
  lemma BackgroundPrecedence(code: int, t1: TimeOfDay, t2: TimeOfDay)
    ensures code == 3 || code == 45 || code == 48 || IsRainCode(code) || IsSnowCode(code) ==>
      BgClass(code, t1) == BgClass(code, t2) && BgClass(code, t1) !in {DawnSky, DuskSky, NightSky, ClearDay}
    ensures !(code == 3 || code == 45 || code == 48 || IsRainCode(code) || IsSnowCode(code)) ==>
      BgClass(code, t1) == TimeSky(t1)
  {
  }

  /** Snow showers (85 and 86) fall in the rain range, which is tested
      first, so they get the rainy gradient and the snowy test only ever
      applies to 71-77. */
  lemma SnowShowersLookRainy(code: int, timeOfDay: TimeOfDay)
    ensures code == 85 || code == 86 ==> IsSnowCode(code) && BgClass(code, timeOfDay) == Rainy
    ensures BgClass(code, timeOfDay) == Snowy <==> 71 <= code <= 77
  {
  }

  // ---------------------------------------------------------------------
  // Time tint

  datatype Tint = NoTint | Tint(backgroundColor: string, mixBlendMode: string)

  /** `timeFilterStyle`: clear and partly cloudy skies (codes up to 2) and
      daytime get no tint; otherwise night, dusk and dawn each have one. */
  function TimeFilter(code: int, timeOfDay: TimeOfDay): (r: Tint)
    ensures r.NoTint? <==> code <= 2 || timeOfDay == Day
    ensures r.Tint? ==> r == TimeTint(timeOfDay)
  {
    if code <= 2 then NoTint
    else if timeOfDay == Night then Tint("rgba(0, 10, 30, 0.7)", "multiply")
    else if timeOfDay == Dusk then Tint("rgba(100, 50, 20, 0.1)", "overlay")
    else if timeOfDay == Dawn then Tint("rgba(255, 150, 150, 0.2)", "overlay")
    else NoTint
  }

  /** The tint of each time of day, looked up by the time alone. */
  function TimeTint(timeOfDay: TimeOfDay): Tint {
    match timeOfDay
    case Night => Tint("rgba(0, 10, 30, 0.7)", "multiply")
    case Dusk => Tint("rgba(100, 50, 20, 0.1)", "overlay")
    case Dawn => Tint("rgba(255, 150, 150, 0.2)", "overlay")
    case Day => NoTint
  }

  // ---------------------------------------------------------------------
  // Particle engine

  datatype EngineKind = Rain | Snow | Clear | Showers | Cloudy

  predicate IsShowerCode(code: int) {
    (51 <= code <= 55) || (80 <= code <= 82)
  }

  /** The engine kind by priority: the rule assigned last wins, so cloudy
      codes come first, then snow, showers and rain; anything else is
      clear. */
  function EngineKindSpec(code: int): EngineKind {
    if code in [2, 3, 45, 48] then Cloudy
    else if IsSnowCode(code) then Snow
    else if IsShowerCode(code) then Showers
    else if (61 <= code <= 65) || code >= 95 then Rain
    else Clear
  }

  /** The rain intensity by priority: heavy, then moderate, then light. */
  function IntensitySpec(code: int): (n: int)
    ensures 1 <= n <= 3
  {
    if code == 65 || code == 82 || code >= 95 then 3
    else if code == 63 || code == 81 then 2
    else 1
  }

  /** The engine setup in the canvas effect: `type` and `rainIntensity`
      start at clear and 1 and are overwritten by each matching rule. */
  method EngineSettings(code: int) returns (kind: EngineKind, rainIntensity: int)
    ensures kind == EngineKindSpec(code)
    ensures rainIntensity == IntensitySpec(code)
  {
    kind := Clear;
    rainIntensity := 1;
    if (61 <= code <= 65) || code >= 95 {
      kind := Rain;
    }
    if code == 63 || code == 81 {
      rainIntensity := 2;
    }
    if code == 65 || code == 82 || code >= 95 {
      rainIntensity := 3;
    }
    if IsShowerCode(code) {
      kind := Showers;
    }
    if IsSnowCode(code) {
      kind := Snow;
    }
    if code in [2, 3, 45, 48] {
      kind := Cloudy;
    }
  }

  /** Freezing rain (66, 67) has no engine rule and runs the clear engine,
      although its background is rainy. */
  lemma FreezingRainClear(code: int)
    requires code == 66 || code == 67
    ensures EngineKindSpec(code) == Clear
    ensures BgClass(code, Day) == Rainy
  {
  }

  /** The rain engine runs exactly for 61-65 and for 95 and above. */
  lemma RainEngineCodes(code: int)
    ensures EngineKindSpec(code) == Rain <==> (61 <= code <= 65) || code >= 95
  {
  }

  // ---------------------------------------------------------------------
  // Decorative layers and readability overlay

  datatype Flags = Flags(
    isSunny: bool,
    isClearNight: bool,
    isPartlyCloudy: bool,
    isOvercast: bool,
    isFoggy: bool,
    isRaining: bool,
    isSnowing: bool)

  function FlagsFor(code: int, timeOfDay: TimeOfDay): (f: Flags)
    ensures f.isSunny ==> code <= 1 && timeOfDay == Day
    ensures f.isClearNight ==> code <= 2 && timeOfDay == Night
    ensures !(f.isSunny && f.isClearNight)
  {
    Flags(
      code <= 1 && timeOfDay == Day,
      code <= 2 && timeOfDay == Night,
      code == 2,
      code == 3,
      code == 45 || code == 48,
      IsRainCode(code),
      IsSnowCode(code))
  }

  /** The sky flags exclude one another, except that snow showers (85, 86)
      count as both raining and snowing. */
  lemma FlagsExclusive(code: int, timeOfDay: TimeOfDay)
    ensures var f := FlagsFor(code, timeOfDay);
      (f.isRaining && f.isSnowing <==> code == 85 || code == 86) &&
      (f.isPartlyCloudy ==> !f.isOvercast && !f.isFoggy && !f.isRaining && !f.isSnowing && !f.isSunny) &&
      (f.isOvercast ==> !f.isFoggy && !f.isRaining && !f.isSnowing && !f.isSunny && !f.isClearNight) &&
      (f.isFoggy ==> !f.isRaining && !f.isSnowing && !f.isSunny && !f.isClearNight)
  {
  }

  /** The readability overlay's opacity, by first match: overcast 0.4,
      partly cloudy 0.1, raining 0.3, snowing 0.2, sunny 0.1, else 0.2. */
  function ContrastOpacity(f: Flags): (a: real)
    ensures a in {0.1, 0.2, 0.3, 0.4}
  {
    if f.isOvercast then 0.4
    else if f.isPartlyCloudy then 0.1
    else if f.isRaining then 0.3
    else if f.isSnowing then 0.2
    else if f.isSunny then 0.1
    else 0.2
  }

  /** The lightest overlay is used exactly for partly cloudy and sunny
      skies, the darkest exactly for overcast. */
  lemma OpacityByCode(code: int, timeOfDay: TimeOfDay)
    ensures ContrastOpacity(FlagsFor(code, timeOfDay)) == 0.1 <==> code == 2 || (code <= 1 && timeOfDay == Day)
    ensures ContrastOpacity(FlagsFor(code, timeOfDay)) == 0.4 <==> code == 3
    ensures ContrastOpacity(FlagsFor(code, timeOfDay)) == 0.3 <==> IsRainCode(code)
  {
  }
}
