/** The simulated live captions of src/components/UI/CaptionOverlay.tsx:
    a phrase is picked from the templates of the playing station's
    category, its first `{country}` and `{station}` placeholders are
    filled, and a typewriter shows it one character per tick. Timers are
    not modelled: each tick is one call, and `Math.random` is a draw passed
    in. */
module CaptionOverlay {
  import opened JsBuiltins
  import opened Stations

  datatype Category = News | Talk | Music | General

  /** The category tests on the lowercased tags, in priority order. */
  function CategoryOf(tags: string): Category {
    var lower := ToLower(tags);
    if Contains(lower, "news") || Contains(lower, "info") then News
    else if Contains(lower, "talk") || Contains(lower, "sport") then Talk
    else if Contains(lower, "music") || Contains(lower, "pop") || Contains(lower, "rock") then Music
    else General
  }

  /** The keywords with their categories, highest priority first. */
  const KEYWORDS: seq<(string, Category)> := [
    ("news", News), ("info", News), ("talk", Talk), ("sport", Talk),
    ("music", Music), ("pop", Music), ("rock", Music)
  ]

  /** The category of the first keyword of `table` that `lower` contains. */
  function FirstKeyword(table: seq<(string, Category)>, lower: string): Option<Category> {
    if table == [] then None
    else if Contains(lower, table[0].0) then Some(table[0].1)
    else FirstKeyword(table[1..], lower)
  }

  /** The category is the one of the first keyword, in priority order,
      found in the lowercased tags, and `general` when there is none. */
  lemma CategoryByKeywords(tags: string)
    ensures CategoryOf(tags) == match FirstKeyword(KEYWORDS, ToLower(tags))
                                case Some(c) => c
                                case None => General
  {
    var lower := ToLower(tags);
    var t := KEYWORDS;
    assert FirstKeyword(t, lower) == if Contains(lower, "news") then Some(News) else FirstKeyword(t[1..], lower);
    assert FirstKeyword(t[1..], lower) == if Contains(lower, "info") then Some(News) else FirstKeyword(t[2..], lower);
    assert FirstKeyword(t[2..], lower) == if Contains(lower, "talk") then Some(Talk) else FirstKeyword(t[3..], lower);
    assert FirstKeyword(t[3..], lower) == if Contains(lower, "sport") then Some(Talk) else FirstKeyword(t[4..], lower);
    assert FirstKeyword(t[4..], lower) == if Contains(lower, "music") then Some(Music) else FirstKeyword(t[5..], lower);
    assert FirstKeyword(t[5..], lower) == if Contains(lower, "pop") then Some(Music) else FirstKeyword(t[6..], lower);
    assert FirstKeyword(t[6..], lower) == if Contains(lower, "rock") then Some(Music) else FirstKeyword(t[7..], lower);
    assert t[7..] == [];
  }

  /** A station without tags gets the general captions. */
  lemma NoTagsGeneral()
    ensures CategoryOf("") == General
  {
    assert ToLower("") == "";
    NotContainsLonger("", "news");
    NotContainsLonger("", "info");
    NotContainsLonger("", "talk");
    NotContainsLonger("", "sport");
    NotContainsLonger("", "music");
    NotContainsLonger("", "pop");
    NotContainsLonger("", "rock");
  }

  // ---------------------------------------------------------------------
  // Templates

  const NEWS_TEMPLATES: seq<string> := [
    "Breaking news: Updates coming in from {country}...",
    "Current events: Stay tuned for the top stories of the hour.",
    "Live report: Weather conditions in the capital remain clear.",
    "World news: Developing story from the region..."
  ]

  const MUSIC_TEMPLATES: seq<string> := [
    "Now playing: The latest hits on {station}.",
    "Musical journey: bringing you the best rhythm.",
    "Up next: A classic track you haven't heard in years.",
    "Feel the beat, feel the world."
  ]

  const TALK_TEMPLATES: seq<string> := [
    "Discussion: Joining us today is a special guest...",
    "Phone lines are open, give us a call.",
    "Topic of the day: How technology changes our lives.",
    "Stay with us for more conversation."
  ]

  const GENERAL_TEMPLATES: seq<string> := [
    "Broadcasting live from {country}...",
    "You are listening to {station}.",
    "Global sounds, local stories.",
    "Connecting the world, one station at a time.",
    "Signal clear. Enjoy the broadcast."
  ]

  /** `CAPTION_TEMPLATES[category]`; every category has its list, so the
      fallback to the general list never applies. */
  function Templates(c: Category): (ts: seq<string>)
    ensures |ts| >= 4
  {
    match c
    case News => NEWS_TEMPLATES
    case Talk => TALK_TEMPLATES
    case Music => MUSIC_TEMPLATES
    case General => GENERAL_TEMPLATES
  }

  /** `templates[Math.floor(Math.random() * templates.length)]`. */
  function ChooseTemplate(c: Category, draw: real): (t: string)
    requires 0.0 <= draw < 1.0
    ensures t in Templates(c)
  {
    Templates(c)[RandomIndex(draw, |Templates(c)|)]
  }

  /** `activeStation.country || 'Location'`. */
  function CountryText(country: string): string {
    if country == "" then "Location" else country
  }

  /** `activeStation.name || 'Station'`. */
  function StationText(name: string): string {
    if name == "" then "Station" else name
  }

  /** The two `replace` calls with string patterns: the first `{country}`,
      then the first `{station}` of the result, are replaced. */
  function FormatCaption(template: string, country: string, name: string): string {
    var withCountry := ReplaceFirst(template, "{country}", CountryText(country));
    ReplaceFirst(withCountry, "{station}", StationText(name))
  }

  /** A template without braces is shown as it is. */
  lemma FormatWithoutBraces(template: string, country: string, name: string)
    requires '{' !in template
    ensures FormatCaption(template, country, name) == template
  {
    NoPlaceholder(template, "{country}");
    NoPlaceholder(template, "{station}");
  }

  /** A pattern whose first character does not occur is not found. */
  lemma NoPlaceholder(s: string, pat: string)
    requires |pat| > 0 && pat[0] !in s
    ensures IndexOf(s, pat).None?
  {
    forall j | 0 <= j <= |s|
      ensures !StartsWith(s[j..], pat)
    {
      if j < |s| {
        assert s[j..][0] == s[j];
      }
    }
  }

  /** A pattern whose first character does not occur before it is found
      where it stands. */
  lemma IndexOfFirst(before: string, pat: string, after: string)
    requires |pat| > 0 && pat[0] !in before
    ensures IndexOf(before + pat + after, pat) == Some(|before|)
  {
    var s := before + pat + after;
    assert s[|before|..][..|pat|] == pat;
    forall j | 0 <= j < |before|
      ensures !StartsWith(s[j..], pat)
    {
      assert s[j..][0] == before[j];
    }
  }

  /** A template with one `{country}` and no other brace gets the country,
      or "Location" for an empty one. */
  lemma FillCountry(before: string, after: string, country: string, name: string)
    requires '{' !in before && '{' !in after
    requires '{' !in CountryText(country) && '$' !in CountryText(country)
    ensures FormatCaption(before + "{country}" + after, country, name)
         == before + CountryText(country) + after
  {
    IndexOfFirst(before, "{country}", after);
    var s := before + "{country}" + after;
    assert s[..|before|] == before;
    assert s[|before| + 9..] == after;
    NoPlaceholder(before + CountryText(country) + after, "{station}");
  }

  /** A template with one `{station}` and no other brace gets the station's
      name, or "Station" for an empty one. */
  lemma FillStation(before: string, after: string, country: string, name: string)
    requires '{' !in before && '{' !in after && '$' !in StationText(name)
    ensures FormatCaption(before + "{station}" + after, country, name)
         == before + StationText(name) + after
  {
    var s := before + "{station}" + after;
    StationIsNotCountry(before, after);
    IndexOfFirst(before, "{station}", after);
    assert s[..|before|] == before;
    assert s[|before| + 9..] == after;
  }

  /** The only brace of such a template opens `{station}`, so `{country}`
      is not found. */
  lemma StationIsNotCountry(before: string, after: string)
    requires '{' !in before && '{' !in after
    ensures IndexOf(before + "{station}" + after, "{country}").None?
  {
    var rest := "station}" + after;
    assert before + "{station}" + after == before + "{" + rest;
    OneBrace(before, rest, "{country}");
  }

  /** In a text whose only brace is followed by something else than the
      pattern's second character, a pattern opening with a brace is not
      found. */
  lemma OneBrace(before: string, rest: string, pat: string)
    requires |pat| >= 2 && pat[0] == '{' && |rest| >= 1 && rest[0] != pat[1] && rest[0] != '{'
    requires '{' !in before && '{' !in rest[1..]
    ensures IndexOf(before + "{" + rest, pat).None?
  {
    var s := before + "{" + rest;
    forall j | 0 <= j <= |s|
      ensures !StartsWith(s[j..], pat)
    {
      if j < |before| {
        assert s[j..][0] == before[j];
      } else if j == |before| {
        assert s[j..][1] == rest[0];
      } else if j == |before| + 1 {
        assert s[j..][0] == rest[0];
      } else if j < |s| {
        assert s[j..][0] == rest[1..][j - |before| - 2];
      }
    }
  }

  /** Milliseconds per typed character, and the pause after a phrase. */
  const TYPE_DELAY := 50
  const PAUSE := 3000

  /** The time until the next phrase: typing the phrase at one character
      per tick leaves exactly the pause with the whole phrase on screen. */
  function Duration(text: string): (ms: nat)
    ensures ms >= PAUSE && ms - PAUSE == TYPE_DELAY * |text|
  {
    |text| * 50 + 3000
  }

  // ---------------------------------------------------------------------
  // Phrase and typewriter state

  class Captions {
    var currentPhrase: string
    var displayedText: string
    var charIndex: int

    /** What is displayed is the part of the phrase typed so far. */
    predicate Valid()
      reads this
    {
      (currentPhrase != "" ==> 0 <= charIndex <= |currentPhrase| && displayedText == currentPhrase[..charIndex]) &&
      (currentPhrase == "" ==> displayedText == "")
    }

    constructor ()
      ensures Valid()
      ensures currentPhrase == "" && displayedText == "" && charIndex == 0
    {
      currentPhrase := "";
      displayedText := "";
      charIndex := 0;
    }

    /** The content generator: with captions off, nothing playing or no
        station, phrase and display are cleared; otherwise a new phrase is
        started and the delay until the next one is returned. */
    method Generate(isLiveCaptionOn: bool, isPlaying: bool, activeStation: Option<Station>, draw: real)
      returns (next: Option<nat>)
      requires Valid()
      requires 0.0 <= draw < 1.0
      modifies this
      ensures Valid()
      ensures !isLiveCaptionOn || !isPlaying || activeStation.None? ==>
        currentPhrase == "" && displayedText == "" && charIndex == old(charIndex) && next == None
      ensures isLiveCaptionOn && isPlaying && activeStation.Some? ==>
        var s := activeStation.value;
        currentPhrase == FormatCaption(ChooseTemplate(CategoryOf(s.tags), draw), s.country, s.name) &&
        displayedText == "" && charIndex == 0 && next == Some(Duration(currentPhrase))
    {
      if !isLiveCaptionOn || !isPlaying || activeStation.None? {
        currentPhrase := "";
        displayedText := "";
        return None;
      }
      var station := activeStation.value;
      var category := CategoryOf(station.tags);
      var rawTemplate := ChooseTemplate(category, draw);
      var text := FormatCaption(rawTemplate, station.country, station.name);
      currentPhrase := text;
      charIndex := 0;
      displayedText := "";
      next := Some(Duration(text));
    }

    /** One typewriter tick: the next character of the phrase is appended
        while some are left; otherwise nothing changes. */
    method Step()
      requires Valid()
      modifies this
      ensures Valid()
      ensures currentPhrase == old(currentPhrase)
      ensures old(currentPhrase) != "" && old(charIndex) < |old(currentPhrase)| ==>
        displayedText == old(displayedText) + [currentPhrase[old(charIndex)]] && charIndex == old(charIndex) + 1
      ensures !(old(currentPhrase) != "" && old(charIndex) < |old(currentPhrase)|) ==>
        displayedText == old(displayedText) && charIndex == old(charIndex)
      ensures currentPhrase != "" && charIndex == |currentPhrase| ==> displayedText == currentPhrase
    {
      if currentPhrase == "" {
        return;
      }
      if charIndex < |currentPhrase| {
        assert currentPhrase[..charIndex + 1] == currentPhrase[..charIndex] + [currentPhrase[charIndex]];
        displayedText := displayedText + [currentPhrase[charIndex]];
        charIndex := charIndex + 1;
      }
    }

    /** The typewriter run to the end: one `Step` per tick of `TYPE_DELAY`
        ms until the whole phrase is shown. `elapsed` is the time the ticks
        take; for a phrase typed from its start, the delay `Generate`
        scheduled outlasts them by exactly `PAUSE`. */
    method TypeOut() returns (elapsed: nat)
      requires Valid()
      modifies this
      ensures Valid()
      ensures currentPhrase == old(currentPhrase)
      ensures currentPhrase == "" ==> elapsed == 0 && displayedText == old(displayedText)
      ensures currentPhrase != "" ==>
        displayedText == currentPhrase && charIndex == |currentPhrase| &&
        elapsed == TYPE_DELAY * (|currentPhrase| - old(charIndex))
      ensures currentPhrase != "" && old(charIndex) == 0 ==> Duration(currentPhrase) == elapsed + PAUSE
    {
      elapsed := 0;
      if currentPhrase == "" {
        return;
      }
      while charIndex < |currentPhrase|
        invariant Valid() && currentPhrase == old(currentPhrase)
        invariant old(charIndex) <= charIndex <= |currentPhrase|
        invariant elapsed == TYPE_DELAY * (charIndex - old(charIndex))
        decreases |currentPhrase| - charIndex
      {
        Step();
        elapsed := elapsed + TYPE_DELAY;
      }
    }
  }
}
